/** `normalizeWindowsMarkdownTargets` (packages/protocol/src/markdown.ts:279-283, 730-790): the text line by line.
    Fenced lines and block code lines are copied, the prose between them is rewritten.  Which lines are block
    code is decided by a Markdown parser, here any set of line numbers, counted from 1. */
module MarkdownLines {
  import opened Wrappers
  import opened Text
  import Sequences
  import MarkdownScan
  import MarkdownTargets
  import MarkdownRewrite

  datatype Fence = Fence(character: char, length: nat)

  /** The end of a run of one character. */
  function RunOf(line: string, i: nat, c: char): (e: nat)
    requires i <= |line|
    ensures i <= e <= |line|
    decreases |line| - i
  {
    if i < |line| && line[i] == c then RunOf(line, i + 1, c) else i
  }

  /** Up to three blanks, then at least three of the fence character. */
  predicate FenceAt(line: string, c: char) {
    var i := RunOf(line, 0, ' ');
    i <= 3 && RunOf(line, i, c) >= i + 3
  }

  function FenceOf(line: string, c: char): Fence {
    var i := RunOf(line, 0, ' ');
    Fence(c, RunOf(line, i, c) - i)
  }

  function AfterFence(line: string, c: char): string {
    line[RunOf(line, RunOf(line, 0, ' '), c)..]
  }

  /** `getMarkdownFenceOpeningRun`: the rest of a backtick fence holds no backtick, that of a tilde fence no
      character that `.` does not match. */
  function FenceOpening(line: string): Option<Fence> {
    if FenceAt(line, '`') && '`' !in AfterFence(line, '`') then Some(FenceOf(line, '`'))
    else if FenceAt(line, '~') && (forall c <- AfterFence(line, '~') :: !MarkdownTargets.IsLineEnd(c)) then Some(FenceOf(line, '~'))
    else None
  }

  function FenceClosing(line: string): Option<Fence> {
    if FenceAt(line, '`') && MarkdownTargets.AllSpace(AfterFence(line, '`')) then Some(FenceOf(line, '`'))
    else if FenceAt(line, '~') && MarkdownTargets.AllSpace(AfterFence(line, '~')) then Some(FenceOf(line, '~'))
    else None
  }

  predicate Closes(fence: Fence, line: string) {
    var run := FenceClosing(line);
    run.Some? && run.value.character == fence.character && run.value.length >= fence.length
  }

  /** The open fence before line `i`. */
  function FenceBefore(lines: seq<string>, blockCode: set<nat>, i: nat): Option<Fence>
    requires i <= |lines|
  {
    if i == 0 then None
    else
      var fence := FenceBefore(lines, blockCode, i - 1);
      if fence.Some? then (if Closes(fence.value, lines[i - 1]) then None else fence)
      else if i in blockCode then None
      else FenceOpening(lines[i - 1])
  }

  /** A line copied as it is: inside or at the edge of a fence, or block code. */
  predicate Copied(lines: seq<string>, blockCode: set<nat>, i: nat)
    requires i < |lines|
  {
    FenceBefore(lines, blockCode, i).Some? || i + 1 in blockCode || FenceOpening(lines[i]).Some?
  }

  /** Which lines are copied. */
  function CopiedLines(lines: seq<string>, blockCode: set<nat>): (copied: seq<bool>)
    ensures |copied| == |lines| && forall i :: 0 <= i < |lines| ==> copied[i] == Copied(lines, blockCode, i)
  {
    seq(|lines|, i requires 0 <= i < |lines| => Copied(lines, blockCode, i))
  }

  // ---- what a fence is

  function Repeated(c: char, n: nat): string {
    seq(n, i => c)
  }

  /** `indent` blanks, a run of `n` fence characters, and a rest that does not go on with them. */
  predicate FenceLine(line: string, indent: nat, c: char, n: nat, rest: string) {
    && indent <= 3 && n >= 3 && (c == '`' || c == '~') && line == Repeated(' ', indent) + (Repeated(c, n) + rest)
    && (rest == "" || rest[0] != c)
  }

  lemma {:induction false} RunEnds(line: string, i: nat, c: char, e: nat)
    requires i <= e <= |line| && (forall k :: i <= k < e ==> line[k] == c) && (e < |line| ==> line[e] != c)
    ensures RunOf(line, i, c) == e
    decreases e - i
  {
    if i < e {
      RunEnds(line, i + 1, c, e);
    }
  }

  lemma FenceParts(line: string, indent: nat, c: char, n: nat, rest: string)
    requires FenceLine(line, indent, c, n, rest)
    ensures RunOf(line, 0, ' ') == indent && RunOf(line, indent, c) == indent + n && line[indent + n..] == rest
    ensures line[indent] == c
  {
    assert line[indent] == c;
    RunEnds(line, 0, ' ', indent);
    assert n + indent < |line| ==> line[indent + n] == rest[0];
    RunEnds(line, indent, c, indent + n);
  }

  /** Such a line opens a fence unless the rest holds a backtick, or behind tildes a line end, and closes one exactly when
      only spaces follow. */
  lemma FenceLineIs(line: string, indent: nat, c: char, n: nat, rest: string)
    requires FenceLine(line, indent, c, n, rest)
    ensures FenceOpening(line) ==
            if (if c == '`' then '`' !in rest else forall x <- rest :: !MarkdownTargets.IsLineEnd(x)) then Some(Fence(c, n)) else None
    ensures FenceClosing(line) == if MarkdownTargets.AllSpace(rest) then Some(Fence(c, n)) else None
  {
    FenceStands(line, indent, c, n, rest);
  }

  lemma FenceStands(line: string, indent: nat, c: char, n: nat, rest: string)
    requires FenceLine(line, indent, c, n, rest)
    ensures FenceAt(line, c) && FenceOf(line, c) == Fence(c, n) && AfterFence(line, c) == rest
    ensures !FenceAt(line, if c == '`' then '~' else '`')
  {
    FenceParts(line, indent, c, n, rest);
    RunEnds(line, indent, if c == '`' then '~' else '`', indent);
  }

  lemma {:induction false} RunIs(line: string, i: nat, c: char)
    requires i <= |line|
    ensures forall k :: i <= k < RunOf(line, i, c) ==> line[k] == c
    ensures RunOf(line, i, c) < |line| ==> line[RunOf(line, i, c)] != c
    decreases |line| - i
  {
    if i < |line| && line[i] == c {
      RunIs(line, i + 1, c);
    }
  }

  lemma RunSlice(line: string, i: nat, c: char)
    requires i <= |line|
    ensures line[i..RunOf(line, i, c)] == Repeated(c, RunOf(line, i, c) - i)
  {
    RunIs(line, i, c);
  }

  lemma ThreeParts(line: string, a: nat, b: nat, first: string, second: string)
    requires a <= b <= |line| && line[0..a] == first && line[a..b] == second
    ensures line == first + (second + line[b..])
  {
    assert line[a..] == line[a..b] + line[b..];
    assert line == line[0..a] + line[a..];
  }

  lemma NextIsOther(line: string, i: nat, c: char)
    requires i <= |line|
    ensures line[RunOf(line, i, c)..] == "" || line[RunOf(line, i, c)..][0] != c
  {
    RunIs(line, i, c);
  }

  lemma FenceSlices(line: string, c: char, indent: nat, end: nat)
    requires indent == RunOf(line, 0, ' ') && end == RunOf(line, indent, c)
    ensures line == Repeated(' ', indent) + (Repeated(c, end - indent) + line[end..])
  {
    RunSlice(line, 0, ' ');
    RunSlice(line, indent, c);
    ThreeParts(line, indent, end, Repeated(' ', indent), Repeated(c, end - indent));
  }

  lemma IsFenceLine(line: string, c: char)
    requires FenceAt(line, c) && (c == '`' || c == '~')
    ensures FenceLine(line, RunOf(line, 0, ' '), c, FenceOf(line, c).length, AfterFence(line, c))
  {
    var indent := RunOf(line, 0, ' ');
    NextIsOther(line, indent, c);
    FenceSlices(line, c, indent, RunOf(line, indent, c));
  }

  ghost predicate IsFence(line: string) {
    exists indent, c, n, rest :: FenceLine(line, indent, c, n, rest)
  }

  /** No other line opens or closes a fence. */
  lemma OnlyFenceLines(line: string)
    ensures FenceOpening(line).Some? || FenceClosing(line).Some? ==> IsFence(line)
  {
    if FenceAt(line, '`') {
      IsFenceLine(line, '`');
    }
    if FenceAt(line, '~') {
      IsFenceLine(line, '~');
    }
  }

  /** Line `s` opens a fence that is open before line `i`. */
  predicate OpenSince(lines: seq<string>, blockCode: set<nat>, s: nat, i: nat, fence: Fence)
    requires i <= |lines|
  {
    && s < i && FenceBefore(lines, blockCode, s).None? && s + 1 !in blockCode && FenceOpening(lines[s]) == Some(fence)
    && forall k: nat :: s < k < i ==> !Closes(fence, lines[k])
  }

  /** A fence is open before a line exactly when an earlier one opened it, outside fences and block code, and none
      between closes it: by the same character, at least as many. */
  lemma {:induction false} OpenSinceExactly(lines: seq<string>, blockCode: set<nat>, i: nat, fence: Fence)
    requires i <= |lines|
    ensures FenceBefore(lines, blockCode, i) == Some(fence) <==> exists s: nat :: s < i && OpenSince(lines, blockCode, s, i, fence)
    decreases i
  {
    if i > 0 {
      OpenSinceExactly(lines, blockCode, i - 1, fence);
      var before := FenceBefore(lines, blockCode, i - 1);
      if before == Some(fence) && !Closes(fence, lines[i - 1]) {
        var s: nat :| s < i - 1 && OpenSince(lines, blockCode, s, i - 1, fence);
        assert OpenSince(lines, blockCode, s, i, fence);
      } else if before.None? && i !in blockCode && FenceOpening(lines[i - 1]) == Some(fence) {
        assert OpenSince(lines, blockCode, i - 1, i, fence);
      }
      forall s: nat | s < i && OpenSince(lines, blockCode, s, i, fence) ensures FenceBefore(lines, blockCode, i) == Some(fence) {
        if s < i - 1 {
          assert OpenSince(lines, blockCode, s, i - 1, fence);
        }
      }
    }
  }

  // ---- what is written

  /** `appendNormalizedProseLines`, for any way to rewrite prose. */
  function Flushed(rewrite: string -> string, prose: seq<string>): seq<string> {
    if prose == [] then [] else Split(rewrite(Join(prose, '\n')), '\n')
  }

  /** The lines written after `written`, from line `i` on with `prose` pending. */
  function Finish(rewrite: string -> string, copied: seq<bool>, written: seq<string>, lines: seq<string>, i: nat,
                  prose: seq<string>): seq<string>
    requires i <= |lines| == |copied|
    decreases |lines| - i
  {
    if i == |lines| then written + Flushed(rewrite, prose)
    else if copied[i] then Finish(rewrite, copied, written + Flushed(rewrite, prose) + [lines[i]], lines, i + 1, [])
    else Finish(rewrite, copied, written, lines, i + 1, prose + [lines[i]])
  }

  /** The lines of the output. */
  function OutputLines(text: string, blockCode: set<nat>): seq<string> {
    Finish(MarkdownRewrite.Prose, CopiedLines(Split(text, '\n'), blockCode), [], Split(text, '\n'), 0, [])
  }

  method Flush(written: seq<string>, prose: seq<string>) returns (output: seq<string>)
    ensures output == written + Flushed(MarkdownRewrite.Prose, prose)
  {
    output := written;
    if prose != [] {
      var normalized := MarkdownRewrite.NormalizeProse(Join(prose, '\n'));
      var pieces := Split(normalized, '\n');
      for k := 0 to |pieces|
        invariant output == written + pieces[..k]
      {
        Sequences.Associative(written, pieces[..k], [pieces[k]]);
        assert pieces[..k + 1] == pieces[..k] + [pieces[k]];
        output := output + [pieces[k]];
      }
      assert pieces[..|pieces|] == pieces;
    }
  }

  /** `normalizeWindowsMarkdownTargets`. */
  method NormalizeTargets(text: string, blockCode: set<nat>) returns (output: string)
    ensures output == Join(OutputLines(text, blockCode), '\n')
  {
    var lines := Split(text, '\n');
    ghost var copied := CopiedLines(lines, blockCode);
    var outputLines: seq<string>, proseLines: seq<string> := [], [];
    var activeFence: Option<Fence> := None;
    for i := 0 to |lines|
      invariant activeFence == FenceBefore(lines, blockCode, i) && (activeFence.Some? ==> proseLines == [])
      invariant Finish(MarkdownRewrite.Prose, copied, outputLines, lines, i, proseLines) == OutputLines(text, blockCode)
    {
      var line := lines[i];
      if activeFence.Some? {
        if Closes(activeFence.value, line) {
          activeFence := None;
        }
        assert outputLines + Flushed(MarkdownRewrite.Prose, []) + [line] == outputLines + [line];
        outputLines := outputLines + [line];
      } else if i + 1 in blockCode {
        outputLines := Flush(outputLines, proseLines);
        proseLines := [];
        outputLines := outputLines + [line];
      } else {
        activeFence := FenceOpening(line);
        if activeFence.Some? {
          outputLines := Flush(outputLines, proseLines);
          proseLines := [];
          outputLines := outputLines + [line];
        } else {
          proseLines := proseLines + [line];
        }
      }
    }
    outputLines := Flush(outputLines, proseLines);
    output := Join(outputLines, '\n');
  }

  // ---- line by line

  /** A longest run of lines that are not copied. */
  predicate IsBlock(copied: seq<bool>, a: nat, b: nat) {
    && a < b <= |copied| && (forall k :: a <= k < b ==> !copied[k])
    && (a == 0 || copied[a - 1]) && (b == |copied| || copied[b])
  }

  /** The rewritten text has as many lines. */
  predicate KeepsLines(rewrite: string -> string, text: string) {
    Count(rewrite(text), '\n') == Count(text, '\n')
  }

  ghost predicate BlocksKeepLines(rewrite: string -> string, copied: seq<bool>, lines: seq<string>)
    requires |lines| == |copied|
  {
    forall a: nat, b: nat :: IsBlock(copied, a, b) ==> KeepsLines(rewrite, Join(lines[a..b], '\n'))
  }

  predicate NoBreaks(lines: seq<string>) {
    forall line <- lines :: '\n' !in line
  }

  /** The pending prose, when it is complete. */
  lemma PendingKeeps(rewrite: string -> string, copied: seq<bool>, lines: seq<string>, a: nat, i: nat)
    requires a <= i <= |lines| == |copied| && NoBreaks(lines) && BlocksKeepLines(rewrite, copied, lines)
    requires (a == 0 || copied[a - 1]) && (i == |lines| || copied[i]) && forall k :: a <= k < i ==> !copied[k]
    ensures |Flushed(rewrite, lines[a..i])| == i - a && NoBreaks(Flushed(rewrite, lines[a..i]))
  {
    if a < i {
      var prose := lines[a..i];
      assert IsBlock(copied, a, i);
      assert KeepsLines(rewrite, Join(lines[a..i], '\n'));
      assert forall k :: 0 <= k < |prose| ==> prose[k] in lines;
      SplitJoin(prose, '\n');
      SplitLength(Join(prose, '\n'), '\n');
      SplitLength(rewrite(Join(prose, '\n')), '\n');
    }
  }

  /** Written lines, then one for each further line, the copied ones unchanged. */
  ghost predicate Follows(result: seq<string>, written: seq<string>, copied: seq<bool>, lines: seq<string>)
    requires |written| <= |lines| == |copied|
  {
    && |result| == |lines| && written <= result && NoBreaks(result)
    && forall k :: |written| <= k < |lines| && copied[k] ==> result[k] == lines[k]
  }

  lemma FollowsCopied(result: seq<string>, written: seq<string>, more: seq<string>, copied: seq<bool>, lines: seq<string>, i: nat)
    requires |written| <= i < |lines| == |copied| && |more| == i - |written| + 1 && more[i - |written|] == lines[i]
    requires forall k :: |written| <= k < i ==> !copied[k]
    requires Follows(result, written + more, copied, lines)
    ensures Follows(result, written, copied, lines)
  {
    assert written <= written + more <= result;
    assert result[i] == (written + more)[i];
  }

  lemma NoBreaksConcat(a: seq<string>, b: seq<string>)
    requires NoBreaks(a) && NoBreaks(b)
    ensures NoBreaks(a + b)
  {
  }

  lemma FollowsEnd(written: seq<string>, flushed: seq<string>, copied: seq<bool>, lines: seq<string>)
    requires |written| <= |lines| == |copied| && NoBreaks(written) && NoBreaks(flushed) && |flushed| == |lines| - |written|
    requires forall k :: |written| <= k < |lines| ==> !copied[k]
    ensures Follows(written + flushed, written, copied, lines)
  {
  }

  /** What is written up to and with the copied line `i`. */
  function UpTo(rewrite: string -> string, written: seq<string>, lines: seq<string>, i: nat): seq<string>
    requires |written| <= i < |lines|
  {
    written + (Flushed(rewrite, lines[|written|..i]) + [lines[i]])
  }

  lemma FinishCopied(rewrite: string -> string, copied: seq<bool>, written: seq<string>, lines: seq<string>, i: nat)
    requires |written| <= i < |lines| == |copied| && copied[i]
    ensures Finish(rewrite, copied, written, lines, i, lines[|written|..i])
            == Finish(rewrite, copied, UpTo(rewrite, written, lines, i), lines, i + 1, lines[i + 1..i + 1])
  {
    Sequences.Associative(written, Flushed(rewrite, lines[|written|..i]), [lines[i]]);
    assert lines[i + 1..i + 1] == [];
  }

  lemma FinishPends(rewrite: string -> string, copied: seq<bool>, written: seq<string>, lines: seq<string>, i: nat)
    requires |written| <= i < |lines| == |copied| && !copied[i]
    ensures Finish(rewrite, copied, written, lines, i, lines[|written|..i])
            == Finish(rewrite, copied, written, lines, i + 1, lines[|written|..i + 1])
  {
    assert lines[|written|..i] + [lines[i]] == lines[|written|..i + 1];
  }

  lemma UpToNoBreaks(rewrite: string -> string, written: seq<string>, lines: seq<string>, i: nat)
    requires |written| <= i < |lines| && NoBreaks(lines) && NoBreaks(written) && NoBreaks(Flushed(rewrite, lines[|written|..i]))
    ensures NoBreaks(UpTo(rewrite, written, lines, i))
  {
    NoBreaksConcat(Flushed(rewrite, lines[|written|..i]), [lines[i]]);
    NoBreaksConcat(written, Flushed(rewrite, lines[|written|..i]) + [lines[i]]);
  }

  /** Every block from line `a` on stands rewritten where it stood. */
  ghost predicate BlocksFollow(rewrite: string -> string, result: seq<string>, copied: seq<bool>, lines: seq<string>, a: nat)
    requires a <= |lines| == |copied| == |result|
  {
    forall x: nat, y: nat :: a <= x && IsBlock(copied, x, y) ==> result[x..y] == Flushed(rewrite, lines[x..y])
  }

  lemma BlocksEnd(rewrite: string -> string, written: seq<string>, flushed: seq<string>, copied: seq<bool>, lines: seq<string>)
    requires |written| <= |lines| == |copied| && (written == [] || copied[|written| - 1]) && |flushed| == |lines| - |written|
    requires flushed == Flushed(rewrite, lines[|written|..|lines|]) && forall k :: |written| <= k < |lines| ==> !copied[k]
    ensures BlocksFollow(rewrite, written + flushed, copied, lines, |written|)
  {
    forall x: nat, y: nat | |written| <= x && IsBlock(copied, x, y)
      ensures (written + flushed)[x..y] == Flushed(rewrite, lines[x..y])
    {
      OnlyBlock(copied, |written|, |lines|, x, y);
      assert (written + flushed)[|written|..|written + flushed|] == flushed;
    }
  }

  lemma SliceBehind<T>(result: seq<T>, written: seq<T>, more: seq<T>, n: nat)
    requires written + more <= result && n <= |more|
    ensures |written| + n <= |result| && result[|written|..|written| + n] == more[..n]
  {
    assert result[..|written + more|] == written + more;
    assert result[|written|..|written| + n] == (written + more)[|written|..|written| + n];
  }

  /** Lines that are not copied, between two that are or the ends, are one block. */
  lemma OnlyBlock(copied: seq<bool>, a: nat, i: nat, x: nat, y: nat)
    requires a <= i <= |copied| && (a == 0 || copied[a - 1]) && (i == |copied| || copied[i]) && forall k :: a <= k < i ==> !copied[k]
    requires a <= x <= i && IsBlock(copied, x, y)
    ensures x == a && y == i
  {
  }

  lemma BlockBefore(rewrite: string -> string, result: seq<string>, written: seq<string>, lines: seq<string>, i: nat)
    requires |written| <= i < |lines| && |UpTo(rewrite, written, lines, i)| == i + 1
    requires UpTo(rewrite, written, lines, i) <= result
    ensures i <= |result| && result[|written|..i] == Flushed(rewrite, lines[|written|..i])
  {
    SliceBehind(result, written, Flushed(rewrite, lines[|written|..i]) + [lines[i]], i - |written|);
  }

  /** The block before a copied line, and those behind it. */
  lemma BlocksCopied(rewrite: string -> string, result: seq<string>, written: seq<string>, copied: seq<bool>, lines: seq<string>, i: nat)
    requires |written| <= i < |lines| == |copied| == |result| && (written == [] || copied[|written| - 1]) && copied[i]
    requires forall k :: |written| <= k < i ==> !copied[k]
    requires |UpTo(rewrite, written, lines, i)| == i + 1 && UpTo(rewrite, written, lines, i) <= result
    requires BlocksFollow(rewrite, result, copied, lines, i + 1)
    ensures BlocksFollow(rewrite, result, copied, lines, |written|)
  {
    forall x: nat, y: nat | |written| <= x && IsBlock(copied, x, y) ensures result[x..y] == Flushed(rewrite, lines[x..y]) {
      if x <= i {
        OnlyBlock(copied, |written|, i, x, y);
        BlockBefore(rewrite, result, written, lines, i);
      }
    }
  }

  ghost predicate Stands(rewrite: string -> string, result: seq<string>, written: seq<string>, copied: seq<bool>, lines: seq<string>)
    requires |written| <= |lines| == |copied|
  {
    Follows(result, written, copied, lines) && BlocksFollow(rewrite, result, copied, lines, |written|)
  }

  /** The lines behind the written ones are pending, up to `i`. */
  ghost predicate Pending(rewrite: string -> string, copied: seq<bool>, written: seq<string>, lines: seq<string>, i: nat) {
    && |written| <= i <= |lines| == |copied| && NoBreaks(lines) && NoBreaks(written) && BlocksKeepLines(rewrite, copied, lines)
    && (written == [] || copied[|written| - 1]) && forall k :: |written| <= k < i ==> !copied[k]
  }

  lemma EndStands(rewrite: string -> string, copied: seq<bool>, written: seq<string>, lines: seq<string>)
    requires Pending(rewrite, copied, written, lines, |lines|)
    ensures Stands(rewrite, written + Flushed(rewrite, lines[|written|..|lines|]), written, copied, lines)
  {
    PendingKeeps(rewrite, copied, lines, |written|, |lines|);
    FollowsEnd(written, Flushed(rewrite, lines[|written|..|lines|]), copied, lines);
    BlocksEnd(rewrite, written, Flushed(rewrite, lines[|written|..|lines|]), copied, lines);
  }

  lemma CopiedPends(rewrite: string -> string, copied: seq<bool>, written: seq<string>, lines: seq<string>, i: nat)
    requires Pending(rewrite, copied, written, lines, i) && i < |lines| && copied[i]
    ensures |UpTo(rewrite, written, lines, i)| == i + 1 && Pending(rewrite, copied, UpTo(rewrite, written, lines, i), lines, i + 1)
  {
    PendingKeeps(rewrite, copied, lines, |written|, i);
    UpToNoBreaks(rewrite, written, lines, i);
  }

  lemma CopiedStands(rewrite: string -> string, copied: seq<bool>, written: seq<string>, lines: seq<string>, i: nat, result: seq<string>)
    requires Pending(rewrite, copied, written, lines, i) && i < |lines| && copied[i] && |UpTo(rewrite, written, lines, i)| == i + 1
    requires Stands(rewrite, result, UpTo(rewrite, written, lines, i), copied, lines)
    ensures Stands(rewrite, result, written, copied, lines)
  {
    FollowsCopied(result, written, Flushed(rewrite, lines[|written|..i]) + [lines[i]], copied, lines, i);
    BlocksCopied(rewrite, result, written, copied, lines, i);
  }

  lemma {:induction false} FinishStands(rewrite: string -> string, copied: seq<bool>, written: seq<string>, lines: seq<string>, i: nat)
    requires Pending(rewrite, copied, written, lines, i)
    ensures Stands(rewrite, Finish(rewrite, copied, written, lines, i, lines[|written|..i]), written, copied, lines)
    decreases |lines| - i
  {
    if i == |lines| {
      EndStands(rewrite, copied, written, lines);
    } else if copied[i] {
      CopiedPends(rewrite, copied, written, lines, i);
      FinishStands(rewrite, copied, UpTo(rewrite, written, lines, i), lines, i + 1);
      FinishCopied(rewrite, copied, written, lines, i);
      CopiedStands(rewrite, copied, written, lines, i, Finish(rewrite, copied, written, lines, i, lines[|written|..i]));
    } else {
      FinishStands(rewrite, copied, written, lines, i + 1);
      FinishPends(rewrite, copied, written, lines, i);
    }
  }

  /** The output, line by line: every copied line, fenced or block code, stands unchanged at its index, and every
      block of prose between them rewritten at its indices. */
  ghost predicate Normalized(text: string, blockCode: set<nat>, output: seq<string>) {
    var lines := Split(text, '\n');
    var copied := CopiedLines(lines, blockCode);
    && |output| == |lines|
    && (forall k :: 0 <= k < |lines| && copied[k] ==> output[k] == lines[k])
    && (forall a: nat, b: nat :: IsBlock(copied, a, b) ==>
          output[a..b] == Split(MarkdownRewrite.Prose(Join(lines[a..b], '\n')), '\n'))
  }

  /** When the prose blocks keep their lines, so does the text. */
  lemma LinesKept(text: string, blockCode: set<nat>)
    requires BlocksKeepLines(MarkdownRewrite.Prose, CopiedLines(Split(text, '\n'), blockCode), Split(text, '\n'))
    ensures Normalized(text, blockCode, Split(Join(OutputLines(text, blockCode), '\n'), '\n'))
  {
    var lines, copied := Split(text, '\n'), CopiedLines(Split(text, '\n'), blockCode);
    assert lines[0..0] == [];
    FinishStands(MarkdownRewrite.Prose, copied, [], lines, 0);
    SplitJoin(OutputLines(text, blockCode), '\n');
    forall a: nat, b: nat | IsBlock(copied, a, b)
      ensures OutputLines(text, blockCode)[a..b] == Split(MarkdownRewrite.Prose(Join(lines[a..b], '\n')), '\n')
    {
      assert lines[a..b] != [];
    }
  }

  lemma KeepsByLength(rewrite: string -> string, prose: seq<string>)
    requires prose != [] && NoBreaks(prose) && |Split(rewrite(Join(prose, '\n')), '\n')| == |prose|
    ensures KeepsLines(rewrite, Join(prose, '\n'))
  {
    SplitJoin(prose, '\n');
    SplitLength(Join(prose, '\n'), '\n');
    SplitLength(rewrite(Join(prose, '\n')), '\n');
  }

  /** And only then. */
  lemma LinesKeptOnly(text: string, blockCode: set<nat>)
    requires Normalized(text, blockCode, Split(Join(OutputLines(text, blockCode), '\n'), '\n'))
    ensures BlocksKeepLines(MarkdownRewrite.Prose, CopiedLines(Split(text, '\n'), blockCode), Split(text, '\n'))
  {
    var lines, copied := Split(text, '\n'), CopiedLines(Split(text, '\n'), blockCode);
    forall a: nat, b: nat | IsBlock(copied, a, b) ensures KeepsLines(MarkdownRewrite.Prose, Join(lines[a..b], '\n')) {
      KeepsByLength(MarkdownRewrite.Prose, lines[a..b]);
    }
  }

  // ---- when prose keeps its lines

  /** A legible text keeps its lines exactly when no angle destination that is rewritten ends in a title with a code
      span of several lines. */
  lemma KeepsLinesExactly(text: string)
    requires MarkdownRewrite.Legible(text)
    ensures KeepsLines(MarkdownRewrite.Prose, text) <==> !MarkdownRewrite.BreakDropped(text)
  {
    MarkdownRewrite.ProseIsEdited(text);
  }

  /** The main result: when the blocks of prose are legible, the output is the text line by line exactly when none of
      them loses such a title. */
  lemma NormalizedLines(text: string, blockCode: set<nat>)
    requires forall a: nat, b: nat :: IsBlock(CopiedLines(Split(text, '\n'), blockCode), a, b) ==>
               MarkdownRewrite.Legible(Join(Split(text, '\n')[a..b], '\n'))
    ensures Normalized(text, blockCode, Split(Join(OutputLines(text, blockCode), '\n'), '\n')) <==>
            forall a: nat, b: nat :: IsBlock(CopiedLines(Split(text, '\n'), blockCode), a, b) ==>
              !MarkdownRewrite.BreakDropped(Join(Split(text, '\n')[a..b], '\n'))
  {
    var lines, copied := Split(text, '\n'), CopiedLines(Split(text, '\n'), blockCode);
    forall a: nat, b: nat | IsBlock(copied, a, b)
      ensures KeepsLines(MarkdownRewrite.Prose, Join(lines[a..b], '\n')) <==> !MarkdownRewrite.BreakDropped(Join(lines[a..b], '\n'))
    {
      KeepsLinesExactly(Join(lines[a..b], '\n'));
    }
    if BlocksKeepLines(MarkdownRewrite.Prose, copied, lines) {
      LinesKept(text, blockCode);
    }
    if Normalized(text, blockCode, Split(Join(OutputLines(text, blockCode), '\n'), '\n')) {
      LinesKeptOnly(text, blockCode);
    }
  }
}
