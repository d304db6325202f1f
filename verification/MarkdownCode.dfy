/** Inline code spans and the tokens that stand for them while destinations are rewritten
    (packages/protocol/src/markdown.ts:14-19, 688-728).

    A masked text is read as `Pieces`: plain characters, and the code spans its tokens stand for. */
module MarkdownCode {
  import Sequences
  import MarkdownScan
  import MarkdownTargets

  datatype Piece = Char(c: char) | Code(span: string)

  const PREFIX := "\0deskcue-code-span-"

  predicate IsDigit(c: char) {
    '0' <= c <= '9'
  }

  /** A superset of the characters a token is made of. */
  predicate IsTokenChar(c: char) {
    c == '\0' || c == '-' || IsDigit(c) || 'a' <= c <= 'z'
  }

  lemma PrefixChars()
    ensures |PREFIX| == 19 && PREFIX[0] == '\0'
    ensures forall k :: 0 <= k < |PREFIX| ==> IsTokenChar(PREFIX[k])
    ensures forall k :: 0 < k < |PREFIX| ==> PREFIX[k] != '\0'
  {
  }

  // ---- numbers

  function Digits(n: nat): string {
    if n < 10 then [('0' as int + n) as char] else Digits(n / 10) + [('0' as int + n % 10) as char]
  }

  /** `Number` of a run of digits. */
  function Number(s: string): nat
    requires forall k :: 0 <= k < |s| ==> IsDigit(s[k])
  {
    if s == "" then 0
    else
      assert IsDigit(s[|s| - 1]);
      10 * Number(s[..|s| - 1]) + (s[|s| - 1] as int - '0' as int)
  }

  lemma {:induction false} NumberOfDigits(n: nat)
    ensures |Digits(n)| > 0 && (forall k :: 0 <= k < |Digits(n)| ==> IsDigit(Digits(n)[k])) && Number(Digits(n)) == n
  {
    if n >= 10 {
      NumberOfDigits(n / 10);
      var d := Digits(n / 10);
      assert Digits(n)[..|d|] == d;
    } else {
      assert Digits(n)[..0] == "";
    }
  }

  // ---- tokens

  function Token(k: nat): string {
    PREFIX + Digits(k) + "\0"
  }

  function DigitsEnd(s: string, i: nat): (e: nat)
    requires i <= |s|
    ensures i <= e <= |s| && (forall k :: i <= k < e ==> IsDigit(s[k])) && (e < |s| ==> !IsDigit(s[e]))
    decreases |s| - i
  {
    if i < |s| && IsDigit(s[i]) then DigitsEnd(s, i + 1) else i
  }

  /** The length of the token `s` begins with; 0 if it begins with none. */
  function TokenLength(s: string): (n: nat)
    ensures n <= |s| && (n > 0 ==> n > |PREFIX| + 1)
  {
    if PREFIX <= s then
      var e := DigitsEnd(s, |PREFIX|);
      if |PREFIX| < e < |s| && s[e] == '\0' then e + 1 else 0
    else 0
  }

  function TokenNumber(token: string): nat
    requires TokenLength(token) == |token| > 0
  {
    Number(token[|PREFIX|..DigitsEnd(token, |PREFIX|)])
  }

  /** What a token stands for; itself if there is no such span. */
  function TokenPieces(token: string, spans: seq<string>): seq<Piece>
    requires TokenLength(token) == |token| > 0
  {
    if TokenNumber(token) < |spans| then [Code(spans[TokenNumber(token)])] else Chars(token)
  }

  function Chars(s: string): (pieces: seq<Piece>)
    ensures |pieces| == |s| && forall k :: 0 <= k < |s| ==> pieces[k] == Char(s[k])
  {
    if s == "" then [] else [Char(s[0])] + Chars(s[1..])
  }

  /** What a masked text reads as. */
  function Pieces(s: string, spans: seq<string>): seq<Piece>
    decreases |s|
  {
    if s == "" then []
    else if TokenLength(s) > 0 then
      TokenAlone(s);
      TokenPieces(s[..TokenLength(s)], spans) + Pieces(s[TokenLength(s)..], spans)
    else [Char(s[0])] + Pieces(s[1..], spans)
  }

  function Shown(piece: Piece): string {
    match piece
    case Char(c) => [c]
    case Code(span) => span
  }

  function Flat(pieces: seq<Piece>): string {
    if pieces == [] then "" else Shown(pieces[0]) + Flat(pieces[1..])
  }

  /** `maskedText.replace(INLINE_CODE_TOKEN_PATTERN, ...)`. */
  function Unmask(s: string, spans: seq<string>): string {
    Flat(Pieces(s, spans))
  }

  // ---- how tokens are found

  lemma {:induction false} DigitsEndIs(s: string, i: nat, e: nat)
    requires i <= e <= |s| && (forall k :: i <= k < e ==> IsDigit(s[k])) && (e < |s| ==> !IsDigit(s[e]))
    ensures DigitsEnd(s, i) == e
    decreases e - i
  {
    if i < e {
      DigitsEndIs(s, i + 1, e);
    }
  }

  /** The characters a token spans. */
  predicate IsToken(s: string, n: nat) {
    && |PREFIX| + 1 < n <= |s| && s[..|PREFIX|] == PREFIX
    && (forall k :: |PREFIX| <= k < n - 1 ==> IsDigit(s[k])) && s[n - 1] == '\0'
  }

  lemma TokenIs(s: string, n: nat)
    requires IsToken(s, n)
    ensures TokenLength(s) == n
  {
    assert PREFIX <= s;
    DigitsEndIs(s, |PREFIX|, n - 1);
  }

  lemma TokenHas(s: string)
    requires TokenLength(s) > 0
    ensures IsToken(s, TokenLength(s))
  {
    assert s[..|PREFIX|] == PREFIX;
  }

  lemma TokenAlone(s: string)
    requires TokenLength(s) > 0
    ensures TokenLength(s[..TokenLength(s)]) == TokenLength(s)
  {
    var n := TokenLength(s);
    TokenHas(s);
    assert s[..n][..|PREFIX|] == PREFIX;
    TokenIs(s[..n], n);
  }

  /** Whether a text begins with a token depends on no character behind the token. */
  lemma TokenBefore(a: string, b: string, n: nat)
    requires n <= |a|
    ensures IsToken(a, n) <==> IsToken(a + b, n)
  {
    assert forall k :: 0 <= k < n ==> (a + b)[k] == a[k];
    if |PREFIX| <= n {
      assert (a + b)[..|PREFIX|] == a[..|PREFIX|];
    }
  }

  lemma TokenChars(s: string, n: nat)
    requires IsToken(s, n)
    ensures forall k :: 0 <= k < n ==> IsTokenChar(s[k])
  {
    PrefixChars();
    forall k | 0 <= k < |PREFIX| ensures IsTokenChar(s[k]) {
      assert s[k] == s[..|PREFIX|][k];
    }
  }

  /** A character no token holds ends every token before it. */
  lemma TokenStops(a: string, c: char, b: string)
    requires !IsTokenChar(c)
    ensures TokenLength(a + [c] + b) == TokenLength(a)
  {
    var w := a + [c] + b;
    if TokenLength(w) > 0 {
      TokenHas(w);
      TokenChars(w, TokenLength(w));
      assert w[|a|] == c;
      assert w == a + ([c] + b);
      TokenBefore(a, [c] + b, TokenLength(w));
      TokenIs(a, TokenLength(w));
    } else if TokenLength(a) > 0 {
      TokenHas(a);
      assert w == a + ([c] + b);
      TokenBefore(a, [c] + b, TokenLength(a));
      TokenIs(w, TokenLength(a));
    }
  }

  lemma Regroup<T>(head: seq<T>, tail: seq<T>, c: T, rest: seq<T>)
    ensures head + (tail + [c] + rest) == head + tail + [c] + rest
  {
  }

  lemma CutBefore(a: string, c: char, b: string, n: nat)
    requires n <= |a|
    ensures (a + [c] + b)[..n] == a[..n] && (a + [c] + b)[n..] == a[n..] + [c] + b
  {
  }

  /** How much of a text one step of the reading takes, and what it reads. */
  function HeadLength(s: string): (n: nat)
    requires s != ""
    ensures 0 < n <= |s|
  {
    if TokenLength(s) > 0 then TokenLength(s) else 1
  }

  function Head(h: string, spans: seq<string>): seq<Piece>
    requires h != ""
  {
    if TokenLength(h) == |h| then TokenPieces(h, spans) else [Char(h[0])]
  }

  lemma PiecesHead(s: string, spans: seq<string>)
    requires s != ""
    ensures var n := HeadLength(s); Pieces(s, spans) == Head(s[..n], spans) + Pieces(s[n..], spans)
  {
    if TokenLength(s) > 0 {
      TokenAlone(s);
    }
  }

  lemma PiecesSplitHead(a: string, c: char, b: string, spans: seq<string>)
    requires !IsTokenChar(c) && a != ""
    ensures var n := HeadLength(a);
            Pieces(a + [c] + b, spans) == Head(a[..n], spans) + Pieces(a[n..] + [c] + b, spans)
  {
    TokenStops(a, c, b);
    CutBefore(a, c, b, HeadLength(a));
    PiecesHead(a + [c] + b, spans);
  }

  lemma PiecesSplitEmpty(c: char, b: string, spans: seq<string>)
    requires !IsTokenChar(c)
    ensures Pieces("" + [c] + b, spans) == [Char(c)] + Pieces(b, spans)
  {
    TokenStops("", c, b);
    FirstOf(c, b);
  }

  /** A character no token holds separates what is read before it from what is read behind it. */
  lemma {:induction false} PiecesSplit(a: string, c: char, b: string, spans: seq<string>)
    requires !IsTokenChar(c)
    ensures Pieces(a + [c] + b, spans) == Pieces(a, spans) + [Char(c)] + Pieces(b, spans)
    decreases |a|
  {
    if a == "" {
      PiecesSplitEmpty(c, b, spans);
    } else {
      var n := HeadLength(a);
      PiecesSplitHead(a, c, b, spans);
      PiecesHead(a, spans);
      PiecesSplit(a[n..], c, b, spans);
      Regroup(Head(a[..n], spans), Pieces(a[n..], spans), Char(c), Pieces(b, spans));
    }
  }

  lemma FirstOf(c: char, b: string)
    ensures ("" + [c] + b)[0] == c && ("" + [c] + b)[1..] == b
  {
  }

  // ---- code spans

  /** The first backtick from `i` on; the length of the text if there is none. */
  function NextRun(text: string, i: nat): (o: nat)
    requires i <= |text|
    ensures i <= o <= |text| && (o < |text| ==> text[o] == '`')
    decreases |text| - i
  {
    if i < |text| && text[i] != '`' then NextRun(text, i + 1) else i
  }

  function RunEnd(text: string, i: nat): (e: nat)
    requires i <= |text|
    ensures i <= e <= |text| && (i < |text| && text[i] == '`' ==> i < e)
    ensures e < |text| ==> text[e] != '`'
    decreases |text| - i
  {
    if i < |text| && text[i] == '`' then RunEnd(text, i + 1) else i
  }

  /** The next run of exactly `n` backticks. */
  function ClosingRun(text: string, from: nat, n: nat): (c: nat)
    requires from <= |text|
    ensures from <= c <= |text| && (c < |text| ==> text[c] == '`' && RunEnd(text, c) == c + n)
    decreases |text| - from
  {
    var c := NextRun(text, from);
    if c == |text| || RunEnd(text, c) == c + n then c else ClosingRun(text, RunEnd(text, c), n)
  }

  /** A code span, with its backticks. */
  datatype Range = Range(start: nat, end: nat)

  /** The spans from `from` on: an unescaped run opens one if a run of the same length follows; if none does,
      the search ends. */
  function Ranges(text: string, from: nat): seq<Range>
    requires from <= |text|
    decreases |text| - from
  {
    var o := NextRun(text, from);
    if o == |text| then []
    else if MarkdownScan.Escaped(text, o) then Ranges(text, RunEnd(text, o))
    else
      var c := ClosingRun(text, RunEnd(text, o), RunEnd(text, o) - o);
      if c == |text| then [] else [Range(o, RunEnd(text, c))] + Ranges(text, RunEnd(text, c))
  }

  predicate InText(text: string, from: nat, ranges: seq<Range>)
    decreases |ranges|
  {
    from <= |text| && (ranges == [] || (from <= ranges[0].start <= ranges[0].end <= |text| && InText(text, ranges[0].end, ranges[1..])))
  }

  lemma {:induction false} InTextLater(text: string, from: nat, later: nat, ranges: seq<Range>)
    requires from <= later && InText(text, later, ranges)
    ensures InText(text, from, ranges)
  {
  }

  lemma InTextCons(text: string, from: nat, r: Range, rest: seq<Range>)
    requires from <= r.start <= r.end <= |text| && InText(text, r.end, rest)
    ensures InText(text, from, [r] + rest)
  {
    assert ([r] + rest)[1..] == rest;
  }

  lemma {:induction false} RangesInText(text: string, from: nat)
    requires from <= |text|
    ensures InText(text, from, Ranges(text, from))
    decreases |text| - from
  {
    var o := NextRun(text, from);
    if o < |text| {
      if MarkdownScan.Escaped(text, o) {
        RangesInText(text, RunEnd(text, o));
        InTextLater(text, from, RunEnd(text, o), Ranges(text, RunEnd(text, o)));
      } else {
        var c := ClosingRun(text, RunEnd(text, o), RunEnd(text, o) - o);
        if c < |text| {
          RangesInText(text, RunEnd(text, c));
          InTextCons(text, from, Range(o, RunEnd(text, c)), Ranges(text, RunEnd(text, c)));
        }
      }
    }
  }

  function Contents(text: string, ranges: seq<Range>): (spans: seq<string>)
    requires forall r <- ranges :: r.start <= r.end <= |text|
    ensures |spans| == |ranges| && forall i :: 0 <= i < |ranges| ==> spans[i] == text[ranges[i].start..ranges[i].end]
  {
    if ranges == [] then [] else [text[ranges[0].start..ranges[0].end]] + Contents(text, ranges[1..])
  }

  lemma {:induction false} InTextBounds(text: string, from: nat, ranges: seq<Range>)
    requires InText(text, from, ranges)
    ensures forall r <- ranges :: r.start <= r.end <= |text|
    decreases |ranges|
  {
    if ranges != [] {
      InTextBounds(text, ranges[0].end, ranges[1..]);
      assert forall r <- ranges :: r == ranges[0] || r in ranges[1..];
    }
  }

  /** The text from `from` on with the spans replaced by tokens numbered from `k`, after `done`. */
  function FinishMask(done: string, text: string, from: nat, ranges: seq<Range>, k: nat): string
    requires InText(text, from, ranges)
    decreases |ranges|
  {
    if ranges == [] then done + text[from..]
    else FinishMask(done + text[from..ranges[0].start] + Token(k), text, ranges[0].end, ranges[1..], k + 1)
  }

  function Masked(text: string, from: nat, ranges: seq<Range>, k: nat): string
    requires InText(text, from, ranges)
    decreases |ranges|
  {
    if ranges == [] then text[from..]
    else text[from..ranges[0].start] + (Token(k) + Masked(text, ranges[0].end, ranges[1..], k + 1))
  }

  lemma {:induction false} FinishMasks(done: string, text: string, from: nat, ranges: seq<Range>, k: nat)
    requires InText(text, from, ranges)
    ensures FinishMask(done, text, from, ranges, k) == done + Masked(text, from, ranges, k)
    decreases |ranges|
  {
    if ranges != [] {
      FinishMasks(done + text[from..ranges[0].start] + Token(k), text, ranges[0].end, ranges[1..], k + 1);
      Regroup4(done, text[from..ranges[0].start], Token(k), Masked(text, ranges[0].end, ranges[1..], k + 1));
    }
  }

  lemma Regroup4(a: string, b: string, c: string, d: string)
    ensures a + b + c + d == a + (b + (c + d))
  {
  }

  // ---- reading a masked text

  /** The beginning of a token with nothing behind it: the prefix and digits. */
  predicate Unfinished(s: string) {
    PREFIX <= s && |PREFIX| < |s| == DigitsEnd(s, |PREFIX|)
  }

  /** The number of the token a text begins with. */
  function FirstNumber(s: string): nat
    requires TokenLength(s) > 0
  {
    TokenAlone(s);
    TokenNumber(s[..TokenLength(s)])
  }

  /** Text outside the code spans that is read back as it is.  Read from the left, a token written out in it has a
      number that no span has, and right before a code span none is left unfinished, which would take the first
      character of the span's token for its own end.  A token that has a larger number stands for itself; what
      begins within it is not read as a token. */
  predicate Plain(s: string, count: nat, before: bool)
    decreases |s|
  {
    if s == "" then true
    else if TokenLength(s) > 0 then FirstNumber(s) >= count && Plain(s[TokenLength(s)..], count, before)
    else !(before && Unfinished(s)) && Plain(s[1..], count, before)
  }

  /** Where a text ends and the end or a token follows. */
  lemma TokenAcross(a: string, x: string)
    requires a != "" && (x != "" ==> x[0] == '\0')
    ensures TokenLength(a) > 0 ==> TokenLength(a + x) == TokenLength(a)
    ensures TokenLength(a) == 0 ==> TokenLength(a + x) == if x != "" && Unfinished(a) then |a| + 1 else 0
  {
    var w := a + x;
    if TokenLength(a) > 0 {
      TokenHas(a);
      TokenBefore(a, x, TokenLength(a));
      TokenIs(w, TokenLength(a));
    } else if x != "" && Unfinished(a) {
      TokenFinished(a, x);
    } else if TokenLength(w) > 0 {
      TokenEnds(a, x);
    }
  }

  lemma TokenFinished(a: string, x: string)
    requires x != "" && x[0] == '\0' && Unfinished(a)
    ensures TokenLength(a + x) == |a| + 1
  {
    var w := a + x;
    assert w[..|PREFIX|] == PREFIX && w[|a|] == x[0];
    TokenIs(w, |a| + 1);
  }

  /** Within a token there is no NUL. */
  lemma TokenInner(s: string, n: nat)
    requires IsToken(s, n)
    ensures forall k :: 0 < k < n - 1 ==> s[k] != '\0'
  {
    PrefixChars();
    forall k | 0 < k < |PREFIX| ensures s[k] != '\0' {
      assert s[k] == s[..|PREFIX|][k];
    }
  }

  /** A token at the head of `a + x` ends within `a`, or with the first character of `x`. */
  lemma TokenEnds(a: string, x: string)
    requires a != "" && (x != "" ==> x[0] == '\0') && TokenLength(a + x) > 0
    ensures TokenLength(a) > 0 || (x != "" && Unfinished(a))
  {
    var w := a + x;
    var n := TokenLength(w);
    TokenHas(w);
    TokenInner(w, n);
    if n <= |a| {
      TokenBefore(a, x, n);
      TokenIs(a, n);
    } else {
      assert w[|a|] == x[0];
      assert n == |a| + 1;
      assert a[..|PREFIX|] == w[..|PREFIX|];
      assert forall k :: |PREFIX| <= k < |a| ==> a[k] == w[k];
      DigitsEndIs(a, |PREFIX|, |a|);
    }
  }

  lemma CutFirst(a: string, x: string)
    requires a != ""
    ensures (a + x)[0] == a[0] && (a + x)[1..] == a[1..] + x && a + x != ""
  {
  }

  lemma SplitFirst(a: string, n: nat, x: string)
    requires n <= |a|
    ensures (a + x)[..n] == a[..n] && (a + x)[n..] == a[n..] + x && a[..n] + a[n..] == a
  {
  }

  lemma CharsConcat(a: string, b: string)
    ensures Chars(a + b) == Chars(a) + Chars(b)
  {
  }

  /** The first step of reading plain text. */
  lemma PlainHead(a: string, spans: seq<string>, before: bool)
    requires a != "" && Plain(a, |spans|, before)
    ensures var n := HeadLength(a);
            Head(a[..n], spans) == Chars(a[..n]) && Plain(a[n..], |spans|, before) && !(TokenLength(a) == 0 && before && Unfinished(a))
  {
    if TokenLength(a) > 0 {
      TokenAlone(a);
    }
  }

  /** Plain text before the end or a token is read as it is. */
  lemma {:induction false} PlainReads(a: string, x: string, spans: seq<string>)
    requires Plain(a, |spans|, x != "") && (x != "" ==> x[0] == '\0')
    ensures Pieces(a + x, spans) == Chars(a) + Pieces(x, spans)
    decreases |a|
  {
    if a == "" {
      assert a + x == x;
    } else {
      var n := HeadLength(a);
      PlainHead(a, spans, x != "");
      TokenAcross(a, x);
      SplitFirst(a, n, x);
      PiecesHead(a + x, spans);
      PlainReads(a[n..], x, spans);
      CharsConcat(a[..n], a[n..]);
      Sequences.Associative(Chars(a[..n]), Chars(a[n..]), Pieces(x, spans));
    }
  }

  lemma TokenShape(k: nat, x: string)
    ensures IsToken(Token(k) + x, |Token(k)|)
    ensures (Token(k) + x)[..|Token(k)|] == Token(k) && (Token(k) + x)[|Token(k)|..] == x
    ensures Token(k)[|PREFIX|..|Token(k)| - 1] == Digits(k) && Token(k)[0] == '\0'
  {
    NumberOfDigits(k);
    PrefixChars();
    var w := Token(k) + x;
    assert w[..|PREFIX|] == PREFIX;
    assert forall j :: |PREFIX| <= j < |Token(k)| - 1 ==> w[j] == Digits(k)[j - |PREFIX|];
  }

  lemma TokenReads(k: nat, spans: seq<string>)
    requires k < |spans|
    ensures TokenLength(Token(k)) == |Token(k)| > 0 && TokenPieces(Token(k), spans) == [Code(spans[k])]
  {
    TokenShape(k, "");
    assert Token(k) + "" == Token(k);
    TokenIs(Token(k), |Token(k)|);
    NumberOfDigits(k);
    DigitsEndIs(Token(k), |PREFIX|, |Token(k)| - 1);
  }

  lemma PiecesOfToken(k: nat, x: string, spans: seq<string>)
    requires k < |spans|
    ensures Pieces(Token(k) + x, spans) == [Code(spans[k])] + Pieces(x, spans)
  {
    TokenShape(k, x);
    TokenIs(Token(k) + x, |Token(k)|);
    TokenReads(k, spans);
  }

  /** The text as it reads: characters outside the spans, and the spans. */
  function Reading(text: string, from: nat, ranges: seq<Range>): seq<Piece>
    requires InText(text, from, ranges)
    decreases |ranges|
  {
    if ranges == [] then Chars(text[from..])
    else Chars(text[from..ranges[0].start]) + ([Code(text[ranges[0].start..ranges[0].end])] + Reading(text, ranges[0].end, ranges[1..]))
  }

  lemma {:induction false} FlatConcat(a: seq<Piece>, b: seq<Piece>)
    ensures Flat(a + b) == Flat(a) + Flat(b)
  {
    if a == [] {
      assert a + b == b;
    } else {
      assert (a + b)[0] == a[0] && (a + b)[1..] == a[1..] + b;
      FlatConcat(a[1..], b);
      Sequences.Associative(Shown(a[0]), Flat(a[1..]), Flat(b));
    }
  }

  lemma {:induction false} FlatChars(s: string)
    ensures Flat(Chars(s)) == s
  {
    if s != "" {
      FlatChars(s[1..]);
      assert s == [s[0]] + s[1..];
    }
  }

  lemma SamePrefix(head: string, tail: string, read: string)
    requires head + tail <= head + read
    ensures tail <= read
  {
    assert (head + read)[..|head + tail|] == head + tail;
    assert read[..|tail|] == (head + tail)[|head|..];
  }

  /** What begins differently further on differs. */
  lemma DiffersLater(head: string, tail: string, shown: string, read: string)
    requires !(tail + shown <= read)
    ensures !((head + tail) + shown <= head + read)
  {
    Sequences.Associative(head, tail, shown);
    if head + (tail + shown) <= head + read {
      SamePrefix(head, tail + shown, read);
    }
  }

  ghost predicate AreSpans(spans: seq<string>) {
    forall span <- spans :: span != "" && span[0] == '`'
  }

  /** Text that is not plain is read as something else, before the span `shown` behind it is over. */
  lemma {:induction false} WrittenReads(a: string, x: string, spans: seq<string>, shown: string)
    requires !Plain(a, |spans|, x != "") && AreSpans(spans)
    requires x != "" ==> x[0] == '\0' && shown != "" && shown[0] == '`'
    ensures !(a + shown <= Flat(Pieces(a + x, spans)))
    decreases |a|
  {
    TokenAcross(a, x);
    PrefixChars();
    if TokenLength(a) > 0 {
      WrittenToken(a, x, spans, shown);
    } else if x != "" && Unfinished(a) {
      WrittenBefore(a, x, spans, shown);
    } else {
      CutFirst(a, x);
      WrittenReads(a[1..], x, spans, shown);
      FlatConcat([Char(a[0])], Pieces(a[1..] + x, spans));
      assert a == [a[0]] + a[1..];
      DiffersLater([a[0]], a[1..], shown, Flat(Pieces(a[1..] + x, spans)));
    }
  }

  /** A code span shows a backtick where the text has the first character of a token. */
  lemma SpanDiffers(a: string, shown: string, span: string, rest: seq<Piece>)
    requires a != "" && a[0] == '\0' && span != "" && span[0] == '`'
    ensures !(a + shown <= Flat([Code(span)] + rest))
  {
    FlatConcat([Code(span)], rest);
    assert Flat([Code(span)] + rest)[0] == '`';
  }

  lemma TokenHead(s: string)
    requires TokenLength(s) > 0
    ensures s != "" && s[0] == '\0'
  {
    TokenHas(s);
    PrefixChars();
    assert s[0] == s[..|PREFIX|][0];
  }

  lemma HeadOfToken(s: string, spans: seq<string>)
    requires TokenLength(s) > 0
    ensures Head(s[..TokenLength(s)], spans)
            == if FirstNumber(s) < |spans| then [Code(spans[FirstNumber(s)])] else Chars(s[..TokenLength(s)])
  {
    TokenAlone(s);
  }

  lemma WrittenToken(a: string, x: string, spans: seq<string>, shown: string)
    requires !Plain(a, |spans|, x != "") && AreSpans(spans) && TokenLength(a) > 0
    requires x != "" ==> x[0] == '\0' && shown != "" && shown[0] == '`'
    ensures !(a + shown <= Flat(Pieces(a + x, spans)))
    decreases |a|, 0
  {
    var n := TokenLength(a);
    TokenAcross(a, x);
    SplitFirst(a, n, x);
    PiecesHead(a + x, spans);
    HeadOfToken(a, spans);
    TokenHead(a);
    if FirstNumber(a) < |spans| {
      assert spans[FirstNumber(a)] in spans;
      SpanDiffers(a, shown, spans[FirstNumber(a)], Pieces(a[n..] + x, spans));
    } else {
      WrittenReads(a[n..], x, spans, shown);
      FlatConcat(Chars(a[..n]), Pieces(a[n..] + x, spans));
      FlatChars(a[..n]);
      DiffersLater(a[..n], a[n..], shown, Flat(Pieces(a[n..] + x, spans)));
    }
  }

  lemma WrittenBefore(a: string, x: string, spans: seq<string>, shown: string)
    requires AreSpans(spans) && Unfinished(a)
    requires x != "" && x[0] == '\0' && shown != "" && shown[0] == '`'
    ensures !(a + shown <= Flat(Pieces(a + x, spans)))
  {
    var w, n := a + x, |a| + 1;
    TokenFinished(a, x);
    PiecesHead(w, spans);
    HeadOfToken(w, spans);
    TokenHead(w);
    FirstTaken(a, x);
    if FirstNumber(w) < |spans| {
      assert spans[FirstNumber(w)] in spans;
      SpanDiffers(a, shown, spans[FirstNumber(w)], Pieces(w[n..], spans));
    } else {
      NulDiffers(a, x[0], shown, Pieces(w[n..], spans));
    }
  }

  lemma FirstTaken(a: string, x: string)
    requires a != "" && x != ""
    ensures (a + x)[..|a| + 1] == a + [x[0]] && (a + x)[0] == a[0]
  {
  }

  lemma NulDiffers(a: string, c: char, shown: string, rest: seq<Piece>)
    requires shown != "" && shown[0] != c
    ensures !(a + shown <= Flat(Chars(a + [c]) + rest))
  {
    FlatConcat(Chars(a + [c]), rest);
    FlatChars(a + [c]);
    assert (a + [c] + Flat(rest))[|a|] == c && (a + shown)[|a|] == shown[0];
  }

  /** Everything outside the spans is plain. */
  predicate AllPlain(text: string, from: nat, ranges: seq<Range>, count: nat)
    requires InText(text, from, ranges)
    decreases |ranges|
  {
    if ranges == [] then Plain(text[from..], count, false)
    else Plain(text[from..ranges[0].start], count, true) && AllPlain(text, ranges[0].end, ranges[1..], count)
  }

  lemma {:induction false} RangesAreSpans(text: string, from: nat)
    requires from <= |text|
    ensures forall r <- Ranges(text, from) :: r.start < r.end <= |text| && text[r.start] == '`'
    decreases |text| - from
  {
    var o := NextRun(text, from);
    if o < |text| {
      if MarkdownScan.Escaped(text, o) {
        RangesAreSpans(text, RunEnd(text, o));
      } else {
        var c := ClosingRun(text, RunEnd(text, o), RunEnd(text, o) - o);
        if c < |text| {
          RangesAreSpans(text, RunEnd(text, c));
        }
      }
    }
  }

  /** A text is masked and read back as it is, every span by its own token, exactly when everything outside its
      spans is plain; if not, even its characters are not. */
  lemma {:induction false} MaskedReads(text: string, from: nat, ranges: seq<Range>, k: nat, spans: seq<string>)
    requires InText(text, from, ranges) && k + |ranges| == |spans| && AreSpans(spans)
    requires forall i :: 0 <= i < |ranges| ==> ranges[i].start <= ranges[i].end <= |text| && spans[k + i] == text[ranges[i].start..ranges[i].end]
    ensures AllPlain(text, from, ranges, |spans|) ==> Pieces(Masked(text, from, ranges, k), spans) == Reading(text, from, ranges)
    ensures !AllPlain(text, from, ranges, |spans|) ==>
              Flat(Pieces(Masked(text, from, ranges, k), spans)) != Flat(Reading(text, from, ranges))
    decreases |ranges|
  {
    if ranges == [] {
      LastReads(text[from..], spans);
    } else {
      var r, rest := ranges[0], ranges[1..];
      assert forall i :: 0 <= i < |rest| ==> rest[i] == ranges[i + 1];
      assert spans[k + 0] == text[r.start..r.end] && spans[k] in spans;
      MaskedReads(text, r.end, rest, k + 1, spans);
      SpanReads(text[from..r.start], Masked(text, r.end, rest, k + 1), k, Reading(text, r.end, rest), spans);
    }
  }

  lemma LastReads(a: string, spans: seq<string>)
    requires AreSpans(spans)
    ensures Plain(a, |spans|, false) ==> Pieces(a, spans) == Chars(a)
    ensures !Plain(a, |spans|, false) ==> Flat(Pieces(a, spans)) != Flat(Chars(a))
  {
    assert a + "" == a && Chars(a) + [] == Chars(a);
    FlatChars(a);
    if Plain(a, |spans|, false) {
      PlainReads(a, "", spans);
    } else {
      WrittenReads(a, "", spans, "");
    }
  }

  /** Text, a token and what follows, against text, a span and what should follow. */
  lemma SpanReads(a: string, x: string, k: nat, due: seq<Piece>, spans: seq<string>)
    requires AreSpans(spans) && k < |spans|
    ensures var read := Pieces(a + (Token(k) + x), spans);
            && (Plain(a, |spans|, true) && Pieces(x, spans) == due ==> read == Chars(a) + ([Code(spans[k])] + due))
            && (!Plain(a, |spans|, true) || Flat(Pieces(x, spans)) != Flat(due) ==> Flat(read) != Flat(Chars(a) + ([Code(spans[k])] + due)))
  {
    TokenShape(k, x);
    assert (Token(k) + x)[0] == '\0' && spans[k] in spans;
    FlatThree(a, spans[k], due);
    if Plain(a, |spans|, true) {
      PlainReads(a, Token(k) + x, spans);
      PiecesOfToken(k, x, spans);
      FlatThree(a, spans[k], Pieces(x, spans));
      SameHead(a + spans[k], Flat(Pieces(x, spans)), Flat(due));
    } else {
      WrittenReads(a, Token(k) + x, spans, spans[k]);
    }
  }

  lemma FlatThree(a: string, span: string, rest: seq<Piece>)
    ensures Flat(Chars(a) + ([Code(span)] + rest)) == (a + span) + Flat(rest)
  {
    FlatConcat(Chars(a), [Code(span)] + rest);
    FlatConcat([Code(span)], rest);
    FlatChars(a);
    Sequences.Associative(a, span, Flat(rest));
  }

  lemma SameHead(head: string, x: string, y: string)
    ensures head + x == head + y ==> x == y
  {
    if head + x == head + y {
      assert x == (head + x)[|head|..] && y == (head + y)[|head|..];
    }
  }

  /** Without the first character of the prefix there is no token. */
  lemma {:induction false} NulFreePlain(s: string, count: nat, before: bool)
    requires '\0' !in s
    ensures Plain(s, count, before)
  {
    if s != "" {
      assert s[0] in s;
      NulFreePlain(s[1..], count, before);
    }
  }

  /** What begins here is neither a token with the number of a span nor, before a span, an unfinished one. */
  predicate NoTokenHere(s: string, count: nat, before: bool) {
    (TokenLength(s) > 0 ==> FirstNumber(s) >= count) && !(before && Unfinished(s))
  }

  ghost predicate TokenFree(s: string, count: nat, before: bool) {
    forall i: nat :: i < |s| ==> NoTokenHere(s[i..], count, before)
  }

  lemma TokenFreeRest(s: string, n: nat, count: nat, before: bool)
    requires n <= |s| && TokenFree(s, count, before)
    ensures TokenFree(s[n..], count, before)
  {
    forall i: nat | i < |s[n..]| ensures NoTokenHere(s[n..][i..], count, before) {
      assert s[n..][i..] == s[n + i..];
    }
  }

  /** So text is plain if nowhere in it such a token begins. */
  lemma {:induction false} TokenFreePlain(s: string, count: nat, before: bool)
    requires TokenFree(s, count, before)
    ensures Plain(s, count, before)
    decreases |s|
  {
    if s != "" {
      assert s[0..] == s;
      assert NoTokenHere(s[0..], count, before);
      TokenFreeRest(s, HeadLength(s), count, before);
      TokenFreePlain(s[HeadLength(s)..], count, before);
    }
  }

  // ---- the masking loop

  /** The inner search of the loop. */
  method FindClosingRun(text: string, from: nat, n: nat) returns (closing: nat)
    requires from <= |text|
    ensures closing == ClosingRun(text, from, n)
  {
    closing := NextRun(text, from);
    while closing < |text| && RunEnd(text, closing) != closing + n
      invariant from <= closing <= |text|
      invariant closing < |text| ==> text[closing] == '`'
      invariant closing == NextRun(text, closing)
      invariant ClosingRun(text, closing, n) == ClosingRun(text, from, n)
      decreases |text| - closing
    {
      closing := NextRun(text, RunEnd(text, closing));
    }
  }

  /** The spans the loop has collected in the end. */
  function FinishSpans(spans: seq<string>, text: string, from: nat, ranges: seq<Range>): seq<string>
    requires InText(text, from, ranges)
    decreases |ranges|
  {
    if ranges == [] then spans
    else FinishSpans(spans + [text[ranges[0].start..ranges[0].end]], text, ranges[0].end, ranges[1..])
  }

  lemma {:induction false} FinishSpansCollects(spans: seq<string>, text: string, from: nat, ranges: seq<Range>)
    requires InText(text, from, ranges) && forall r <- ranges :: r.start <= r.end <= |text|
    ensures FinishSpans(spans, text, from, ranges) == spans + Contents(text, ranges)
    decreases |ranges|
  {
    if ranges == [] {
      assert spans + [] == spans;
    } else {
      var span := text[ranges[0].start..ranges[0].end];
      assert forall r <- ranges[1..] :: r in ranges;
      FinishSpansCollects(spans + [span], text, ranges[0].end, ranges[1..]);
      Sequences.Associative(spans, [span], Contents(text, ranges[1..]));
    }
  }

  /** The loop is on its way to the masked text and its spans. */
  ghost predicate Masking(text: string, cursor: nat, ranges: seq<Range>, done: string, spans: seq<string>,
                          masked: string, all: seq<string>)
  {
    && InText(text, cursor, ranges)
    && FinishMask(done, text, cursor, ranges, |spans|) == masked
    && FinishSpans(spans, text, cursor, ranges) == all
  }

  lemma MaskingTakes(text: string, cursor: nat, ranges: seq<Range>, r: Range, rest: seq<Range>, done: string,
                     spans: seq<string>, masked: string, all: seq<string>)
    requires Masking(text, cursor, ranges, done, spans, masked, all) && ranges == [r] + rest
    ensures cursor <= r.start <= r.end <= |text|
    ensures Masking(text, r.end, rest, done + text[cursor..r.start] + Token(|spans|), spans + [text[r.start..r.end]], masked, all)
  {
    assert ranges[1..] == rest;
  }

  /** The closing run of the span that opens at `o`. */
  function ClosingOf(text: string, o: nat): nat
    requires o <= |text|
  {
    ClosingRun(text, RunEnd(text, o), RunEnd(text, o) - o)
  }

  lemma RangesEnd(text: string, from: nat)
    requires from <= |text| && NextRun(text, from) == |text|
    ensures Ranges(text, from) == []
  {
  }

  lemma RangesSkip(text: string, from: nat, o: nat)
    requires from <= |text| && o == NextRun(text, from) && o < |text| && MarkdownScan.Escaped(text, o)
    ensures Ranges(text, from) == Ranges(text, RunEnd(text, o))
  {
  }

  lemma RangesOpen(text: string, from: nat, o: nat)
    requires from <= |text| && o == NextRun(text, from) && o < |text| && !MarkdownScan.Escaped(text, o)
    ensures var c := ClosingOf(text, o);
            Ranges(text, from) == if c == |text| then [] else [Range(o, RunEnd(text, c))] + Ranges(text, RunEnd(text, c))
  {
  }

  lemma TakesSpan(text: string, cursor: nat, position: nat, o: nat, end: nat, done: string, spans: seq<string>,
                  masked: string, all: seq<string>)
    requires position <= |text| && o == NextRun(text, position) && o < |text| && !MarkdownScan.Escaped(text, o)
    requires ClosingOf(text, o) < |text| && end == RunEnd(text, ClosingOf(text, o))
    requires Masking(text, cursor, Ranges(text, position), done, spans, masked, all)
    ensures cursor <= o <= end <= |text|
    ensures Masking(text, end, Ranges(text, end), done + text[cursor..o] + Token(|spans|), spans + [text[o..end]], masked, all)
  {
    RangesOpen(text, position, o);
    MaskingTakes(text, cursor, Ranges(text, position), Range(o, end), Ranges(text, end), done, spans, masked, all);
  }

  lemma SkipsRun(text: string, cursor: nat, position: nat, o: nat, done: string, spans: seq<string>, masked: string, all: seq<string>)
    requires position <= |text| && o == NextRun(text, position) && o < |text| && MarkdownScan.Escaped(text, o)
    requires Masking(text, cursor, Ranges(text, position), done, spans, masked, all)
    ensures Masking(text, cursor, Ranges(text, RunEnd(text, o)), done, spans, masked, all)
  {
    RangesSkip(text, position, o);
  }

  lemma EndsMask(text: string, cursor: nat, position: nat, o: nat, done: string, spans: seq<string>, masked: string, all: seq<string>)
    requires position <= |text| && o == NextRun(text, position) && o < |text| && !MarkdownScan.Escaped(text, o)
    requires ClosingOf(text, o) == |text|
    requires Masking(text, cursor, Ranges(text, position), done, spans, masked, all)
    ensures Masking(text, cursor, [], done, spans, masked, all)
  {
    RangesOpen(text, position, o);
  }

  /** One round of the masking loop; `more` is false when it ends. */
  method MaskNext(text: string, cursor: nat, position: nat, opening: nat, done: string, spans: seq<string>,
                  ghost masked: string, ghost all: seq<string>)
    returns (more: bool, nextCursor: nat, nextPosition: nat, nextDone: string, nextSpans: seq<string>)
    requires cursor <= position <= |text| && opening == NextRun(text, position) && opening < |text|
    requires Masking(text, cursor, Ranges(text, position), done, spans, masked, all)
    ensures nextCursor <= nextPosition <= |text| && position < nextPosition
    ensures Masking(text, nextCursor, if more then Ranges(text, nextPosition) else [], nextDone, nextSpans, masked, all)
  {
    var openingEnd := RunEnd(text, opening);
    var escaped := MarkdownTargets.IsEscaped(text, opening);
    if escaped {
      SkipsRun(text, cursor, position, opening, done, spans, masked, all);
      return true, cursor, openingEnd, done, spans;
    }
    var closing := FindClosingRun(text, openingEnd, openingEnd - opening);
    if closing == |text| {
      EndsMask(text, cursor, position, opening, done, spans, masked, all);
      return false, cursor, openingEnd, done, spans;
    }
    var end := RunEnd(text, closing);
    TakesSpan(text, cursor, position, opening, end, done, spans, masked, all);
    return true, end, end, done + text[cursor..opening] + Token(|spans|), spans + [text[opening..end]];
  }

  /** The first half of `normalizeWindowsMarkdownTargetsOutsideInlineCode`. */
  method MaskCode(text: string) returns (masked: string, spans: seq<string>)
    ensures InText(text, 0, Ranges(text, 0)) && masked == FinishMask("", text, 0, Ranges(text, 0), 0)
    ensures spans == FinishSpans([], text, 0, Ranges(text, 0))
  {
    var cursor: nat, position: nat, more := 0, 0, true;
    masked, spans := "", [];
    RangesInText(text, 0);
    ghost var whole := FinishMask("", text, 0, Ranges(text, 0), 0);
    ghost var all := FinishSpans([], text, 0, Ranges(text, 0));
    var opening := NextRun(text, 0);
    while more && opening < |text|
      invariant cursor <= position <= opening <= |text| && opening == NextRun(text, position)
      invariant Masking(text, cursor, if more then Ranges(text, position) else [], masked, spans, whole, all)
      decreases |text| - position
    {
      more, cursor, position, masked, spans := MaskNext(text, cursor, position, opening, masked, spans, whole, all);
      opening := NextRun(text, position);
    }
    if more {
      RangesEnd(text, position);
    }
    masked := masked + text[cursor..];
  }
}
