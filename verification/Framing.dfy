/** One request or response a connection, over any chunks (packages/host-control/src/framing.ts).

    `JSON.stringify` and `JSON.parse` are a codec that is only known to print what it reads back. */
module Framing {
  import opened Wrappers
  import opened Sequences
  import opened Text
  import opened Utf8

  const MAX_FRAME_BYTES: nat := 64 * 1024
  const END_MARKER := "--deskcue-control-request-end-v1--"

  datatype Codec<!V> = Codec(nothing: V, stringify: V -> string, parse: string -> Option<V>)

  /** What is printed has no line break, does not end in white space, is not blank and reads back. */
  ghost predicate Prints<V>(codec: Codec<V>, value: V) {
    var text := codec.stringify(value);
    '\n' !in text && text != "" && Trim(text) == TrimEnd(text) == text && codec.parse(text) == Some(value)
  }

  datatype Error = TooLarge | Malformed | NotTerminated | SecondMarker | SecondRequest | Unfinished

  /** What `push` and `finish` return or throw; `null` is the codec's `nothing`. */
  datatype Outcome<V> = Returned(value: V) | Thrown(error: Error)

  // ---- lines

  /** `indexOf("\n")`. */
  function LineEnd(text: string): (i: nat)
    ensures i <= |text| && '\n' !in text[..i] && (i < |text| ==> text[i] == '\n')
    ensures i == |text| <==> '\n' !in text
  {
    if text == "" || text[0] == '\n' then 0
    else
      var i := LineEnd(text[1..]) + 1;
      assert text[..i] == [text[0]] + text[1..][..i - 1] && text == [text[0]] + text[1..];
      i
  }

  lemma {:induction false} LineEndAt(line: string, rest: string)
    requires '\n' !in line
    ensures LineEnd(line + ['\n'] + rest) == |line|
  {
    var text := line + ['\n'] + rest;
    if line != "" {
      LineEndAt(line[1..], rest);
      assert text[0] == line[0] && text[1..] == line[1..] + ['\n'] + rest;
    }
  }

  // ---- requests

  /** `BoundedHostControlRequestDecoder`, but for its bytes. */
  datatype Reader<V> = Reader(text: string, request: V, committed: bool)

  /** The loop of `push` over the lines that are complete. */
  function Consume<V(==)>(codec: Codec<V>, r: Reader<V>): (Reader<V>, Outcome<V>)
    decreases |r.text|
  {
    var i := LineEnd(r.text);
    if i == |r.text| then (r, Returned(codec.nothing))
    else
      var line, rest := TrimEnd(r.text[..i]), r.text[i + 1..];
      if r.request == codec.nothing then
        var value := codec.parse(line);
        if value.None? then (r.(text := rest), Thrown(Malformed)) else Consume(codec, r.(text := rest, request := value.value))
      else if line != END_MARKER then (r.(text := rest), Thrown(NotTerminated))
      else if HasMarkerLine(rest) then (r.(text := rest), Thrown(SecondMarker))
      else (Reader("", r.request, true), Returned(r.request))
  }

  predicate HasMarkerLine(rest: string) {
    exists line <- Split(rest, '\n') :: TrimEnd(line) == END_MARKER
  }

  /** `push` after the size check, on decoded text. */
  function Push<V(==)>(codec: Codec<V>, r: Reader<V>, text: string): (Reader<V>, Outcome<V>) {
    var next := r.(text := r.text + text);
    if !r.committed then Consume(codec, next)
    else (next, if next.text != "" then Thrown(SecondRequest) else Returned(codec.nothing))
  }

  function Frame(json: string): string {
    json + ['\n'] + END_MARKER + ['\n']
  }

  lemma MarkerPlain()
    ensures '\n' !in END_MARKER && END_MARKER != "" && TrimEnd(END_MARKER) == END_MARKER
  {
    assert END_MARKER[|END_MARKER| - 1] == '-';
  }

  /** Where the reader is when it has read `n` characters of the frame. */
  function ReaderAt<V(==)>(codec: Codec<V>, json: string, value: V, n: nat): Reader<V>
    requires n <= |Frame(json)|
  {
    if n <= |json| then Reader(json[..n], codec.nothing, false)
    else if n < |Frame(json)| then Reader((END_MARKER + ['\n'])[..n - |json| - 1], value, false)
    else Reader("", value, true)
  }

  /** The terminal marker is read. */
  lemma ConsumeMarker<V>(codec: Codec<V>, value: V)
    requires value != codec.nothing
    ensures Consume(codec, Reader(END_MARKER + ['\n'], value, false)) == (Reader("", value, true), Returned(value))
  {
    MarkerPlain();
    assert END_MARKER + ['\n'] + "" == END_MARKER + ['\n'];
    LineEndAt(END_MARKER, "");
    var text := END_MARKER + ['\n'];
    assert text[..|END_MARKER|] == END_MARKER && text[|END_MARKER| + 1..] == "";
    assert TrimEnd("") != END_MARKER;
  }

  lemma NoLineIn(text: string, whole: string)
    requires '\n' !in whole && text <= whole
    ensures LineEnd(text) == |text|
  {
    forall i | 0 <= i < |text| ensures text[i] != '\n' {
      assert text[i] == whole[i] && whole[i] in whole;
    }
  }

  lemma ConsumePartial<V>(codec: Codec<V>, value: V, n: nat)
    requires value != codec.nothing && n <= |END_MARKER|
    ensures var r := Reader((END_MARKER + ['\n'])[..n], value, false); Consume(codec, r) == (r, Returned(codec.nothing))
  {
    MarkerPlain();
    assert (END_MARKER + ['\n'])[..n] == END_MARKER[..n];
    NoLineIn(END_MARKER[..n], END_MARKER);
  }

  /** The line of the request is read, and then what follows it. */
  lemma ConsumeRequest<V>(codec: Codec<V>, value: V, rest: string)
    requires Prints(codec, value) && value != codec.nothing
    ensures Consume(codec, Reader(codec.stringify(value) + ['\n'] + rest, codec.nothing, false)) == Consume(codec, Reader(rest, value, false))
  {
    var json := codec.stringify(value);
    var text := json + ['\n'] + rest;
    LineEndAt(json, rest);
    assert text[..|json|] == json && text[|json| + 1..] == rest;
  }

  lemma PrefixSlice<T>(whole: seq<T>, n: nat, m: nat)
    requires n <= m <= |whole|
    ensures whole[..n] + whole[n..m] == whole[..m]
  {
  }

  lemma BehindSlice<T>(before: seq<T>, whole: seq<T>, n: nat, m: nat)
    requires n <= m <= |whole|
    ensures (before + whole)[|before| + n..|before| + m] == whole[n..m]
  {
  }

  lemma FrameParts(json: string)
    ensures Frame(json) == (json + ['\n']) + (END_MARKER + ['\n'])
  {
  }

  lemma FrameSlice(json: string, n: nat, m: nat)
    requires |json| < n <= m <= |Frame(json)|
    ensures Frame(json)[n..m] == (END_MARKER + ['\n'])[n - |json| - 1..m - |json| - 1]
  {
    FrameParts(json);
    BehindSlice(json + ['\n'], END_MARKER + ['\n'], n - |json| - 1, m - |json| - 1);
  }

  /** From within the marker. */
  lemma PushInMarker<V>(codec: Codec<V>, json: string, value: V, n: nat, m: nat)
    requires value != codec.nothing && |json| < n <= m <= |Frame(json)| && n < |Frame(json)|
    ensures Push(codec, ReaderAt(codec, json, value, n), Frame(json)[n..m])
            == (ReaderAt(codec, json, value, m), Returned(if m == |Frame(json)| then value else codec.nothing))
  {
    var tail, o := END_MARKER + ['\n'], |json| + 1;
    FrameSlice(json, n, m);
    PrefixSlice(tail, n - o, m - o);
    TailRead(codec, value, m - o);
  }

  lemma TailRead<V>(codec: Codec<V>, value: V, k: nat)
    requires value != codec.nothing && k <= |END_MARKER| + 1
    ensures var tail := END_MARKER + ['\n'];
            Consume(codec, Reader(tail[..k], value, false))
            == if k == |tail| then (Reader("", value, true), Returned(value)) else (Reader(tail[..k], value, false), Returned(codec.nothing))
  {
    var tail := END_MARKER + ['\n'];
    if k == |tail| {
      assert tail[..k] == tail;
      ConsumeMarker(codec, value);
    } else {
      ConsumePartial(codec, value, k);
    }
  }

  /** From within the request. */
  lemma PushInRequest<V>(codec: Codec<V>, value: V, n: nat, m: nat)
    requires Prints(codec, value) && value != codec.nothing
    requires var json := codec.stringify(value); n <= |json| && n <= m <= |Frame(json)|
    ensures var json := codec.stringify(value);
            Push(codec, ReaderAt(codec, json, value, n), Frame(json)[n..m])
            == (ReaderAt(codec, json, value, m), Returned(if m == |Frame(json)| then value else codec.nothing))
  {
    var json, tail := codec.stringify(value), END_MARKER + ['\n'];
    var frame := Frame(json);
    assert json[..n] == frame[..n];
    PrefixSlice(frame, n, m);
    if m <= |json| {
      assert frame[..m] == json[..m];
      NoLineIn(json[..m], json);
    } else {
      var k := m - |json| - 1;
      FrameParts(json);
      assert frame[..m] == (json + ['\n']) + tail[..k];
      ConsumeRequest(codec, value, tail[..k]);
      TailRead(codec, value, k);
    }
  }

  /** More characters of the frame move the reader along it; the request comes out with the last. */
  lemma PushAlong<V>(codec: Codec<V>, value: V, n: nat, m: nat)
    requires Prints(codec, value) && value != codec.nothing
    requires n <= m <= |Frame(codec.stringify(value))|
    ensures var json := codec.stringify(value);
            Push(codec, ReaderAt(codec, json, value, n), Frame(json)[n..m])
            == (ReaderAt(codec, json, value, m), Returned(if n < m == |Frame(json)| then value else codec.nothing))
  {
    var json := codec.stringify(value);
    if n == |Frame(json)| {
      assert Frame(json)[n..m] == "";
    } else if n > |json| {
      PushInMarker(codec, json, value, n, m);
    } else {
      PushInRequest(codec, value, n, m);
    }
  }

  lemma Regrouped(json: string, extra: string)
    ensures Frame(json) + extra == json + ['\n'] + (END_MARKER + ['\n'] + extra)
  {
  }

  lemma ConsumeTrailing<V>(codec: Codec<V>, value: V, extra: string)
    requires value != codec.nothing
    ensures Consume(codec, Reader(END_MARKER + ['\n'] + extra, value, false)).1
            == if HasMarkerLine(extra) then Thrown(SecondMarker) else Returned(value)
  {
    MarkerPlain();
    LineEndAt(END_MARKER, extra);
    var text := END_MARKER + ['\n'] + extra;
    assert text[..|END_MARKER|] == END_MARKER && text[|END_MARKER| + 1..] == extra;
  }

  /** However much of the frame was read before, what follows it in the text that ends it is dropped, unless it
      holds the marker again. */
  lemma TrailingText<V>(codec: Codec<V>, value: V, extra: string, n: nat)
    requires Prints(codec, value) && value != codec.nothing && n < |Frame(codec.stringify(value))|
    ensures var json := codec.stringify(value);
            Push(codec, ReaderAt(codec, json, value, n), Frame(json)[n..] + extra).1
            == if HasMarkerLine(extra) then Thrown(SecondMarker) else Returned(value)
  {
    var json, tail := codec.stringify(value), END_MARKER + ['\n'];
    var frame := Frame(json);
    if n <= |json| {
      Regrouped(json, extra);
      assert json[..n] == frame[..n];
      assert frame[..n] + (frame[n..] + extra) == frame + extra;
      ConsumeRequest(codec, value, tail + extra);
    } else {
      FrameSlice(json, n, |frame|);
      assert frame[n..] == tail[n - |json| - 1..];
      assert tail[..n - |json| - 1] + (tail[n - |json| - 1..] + extra) == tail + extra;
    }
    ConsumeTrailing(codec, value, extra);
  }

  // ---- responses

  /** `BoundedNdjsonDecoder`, but for its bytes. */
  datatype LineReader = LineReader(text: string, complete: bool)

  function Parsed<V>(codec: Codec<V>, line: string): Outcome<V> {
    var value := codec.parse(line);
    if value.Some? then Returned(value.value) else Thrown(Malformed)
  }

  /** `push` after the size check, on decoded text. */
  function PushLine<V>(codec: Codec<V>, r: LineReader, text: string): (LineReader, Outcome<V>) {
    var next := r.(text := r.text + text);
    var i := LineEnd(next.text);
    if r.complete then (next, if Trim(next.text) != "" then Thrown(SecondRequest) else Returned(codec.nothing))
    else if i == |next.text| then (next, Returned(codec.nothing))
    else if Trim(next.text[i + 1..]) != "" then (next, Thrown(SecondRequest))
    else (LineReader(next.text[i + 1..], true), Parsed(codec, TrimEnd(next.text[..i])))
  }

  /** `finish`, on decoded text. */
  function FinishLine<V>(codec: Codec<V>, r: LineReader, text: string): Outcome<V> {
    var all := r.text + text;
    if r.complete then (if Trim(all) != "" then Thrown(SecondRequest) else Returned(codec.nothing))
    else if Trim(all) == "" then Returned(codec.nothing)
    else Parsed(codec, Trim(all))
  }

  predicate Blank(text: string) {
    forall i :: 0 <= i < |text| ==> IsSpace(text[i])
  }

  lemma {:induction false} TrimBlank(text: string)
    requires Blank(text)
    ensures Trim(text) == ""
  {
    if text != "" {
      TrimBlank(text[1..]);
    }
  }

  /** A response, its line break and white space after it. */
  function LineFrame(json: string, blank: string): string {
    json + ['\n'] + blank
  }

  function LineReaderAt(json: string, blank: string, n: nat): LineReader
    requires n <= |LineFrame(json, blank)|
  {
    if n <= |json| then LineReader(json[..n], false) else LineReader(blank[..n - |json| - 1], true)
  }

  lemma LineSlice(json: string, blank: string, n: nat, m: nat)
    requires |json| < n <= m <= |LineFrame(json, blank)|
    ensures blank[..n - |json| - 1] + LineFrame(json, blank)[n..m] == blank[..m - |json| - 1]
  {
    BehindSlice(json + ['\n'], blank, n - |json| - 1, m - |json| - 1);
    PrefixSlice(blank, n - |json| - 1, m - |json| - 1);
  }

  lemma PushLineBehind<V>(codec: Codec<V>, json: string, blank: string, n: nat, m: nat)
    requires Blank(blank) && |json| < n <= m <= |LineFrame(json, blank)|
    ensures PushLine(codec, LineReaderAt(json, blank, n), LineFrame(json, blank)[n..m])
            == (LineReaderAt(json, blank, m), Returned(codec.nothing))
  {
    LineSlice(json, blank, n, m);
    TrimBlank(blank[..m - |json| - 1]);
  }

  lemma LineComplete<V>(codec: Codec<V>, value: V, before: string, text: string, rest: string)
    requires Prints(codec, value) && Blank(rest) && before + text == codec.stringify(value) + ['\n'] + rest
    ensures PushLine(codec, LineReader(before, false), text) == (LineReader(rest, true), Returned(value))
  {
    var json, all := codec.stringify(value), before + text;
    LineEndAt(json, rest);
    assert all[..|json|] == json && all[|json| + 1..] == rest;
    TrimBlank(rest);
  }

  lemma LineIncomplete<V>(codec: Codec<V>, json: string, before: string, text: string, m: nat)
    requires '\n' !in json && m <= |json| && before + text == json[..m]
    ensures PushLine(codec, LineReader(before, false), text) == (LineReader(json[..m], false), Returned(codec.nothing))
  {
    NoLineIn(json[..m], json);
  }

  /** The first `m` characters of a response's frame, of which `n` were there. */
  lemma LineFrameTo(json: string, blank: string, n: nat, m: nat)
    requires n <= |json| && n <= m <= |LineFrame(json, blank)|
    ensures json[..n] + LineFrame(json, blank)[n..m]
            == if m <= |json| then json[..m] else json + ['\n'] + blank[..m - |json| - 1]
  {
    var frame := LineFrame(json, blank);
    assert json[..n] == frame[..n];
    PrefixSlice(frame, n, m);
    if m <= |json| {
      assert frame[..m] == json[..m];
    } else {
      assert frame[..m] == json + ['\n'] + blank[..m - |json| - 1];
    }
  }

  lemma PushLineShort<V>(codec: Codec<V>, json: string, blank: string, n: nat, m: nat)
    requires '\n' !in json && n <= m <= |json|
    ensures PushLine(codec, LineReader(json[..n], false), LineFrame(json, blank)[n..m]) == (LineReader(json[..m], false), Returned(codec.nothing))
  {
    LineFrameTo(json, blank, n, m);
    LineIncomplete(codec, json, json[..n], LineFrame(json, blank)[n..m], m);
  }

  lemma LineFrameLong(json: string, blank: string, n: nat, m: nat)
    requires Blank(blank) && n <= |json| < m <= |LineFrame(json, blank)|
    ensures Blank(blank[..m - |json| - 1]) && json[..n] + LineFrame(json, blank)[n..m] == json + ['\n'] + blank[..m - |json| - 1]
  {
    LineFrameTo(json, blank, n, m);
  }

  /** What is read so far, and the rest of the line with more behind it. */
  lemma LineCompletes<V>(codec: Codec<V>, value: V, before: string, text: string, rest: string, all: string)
    requires Prints(codec, value) && Blank(rest) && all == codec.stringify(value) + ['\n'] + rest && before + text == all
    ensures PushLine(codec, LineReader(before, false), text) == (LineReader(rest, true), Returned(value))
  {
    LineComplete(codec, value, before, text, rest);
  }

  lemma PushLineTo<V>(codec: Codec<V>, value: V, blank: string, n: nat, m: nat)
    requires Prints(codec, value) && Blank(blank)
    requires var json := codec.stringify(value); n <= |json| && n <= m <= |LineFrame(json, blank)|
    ensures var json := codec.stringify(value);
            PushLine(codec, LineReaderAt(json, blank, n), LineFrame(json, blank)[n..m])
            == (LineReaderAt(json, blank, m), Returned(if m > |json| then value else codec.nothing))
  {
    if m <= |codec.stringify(value)| {
      PushLineShort(codec, codec.stringify(value), blank, n, m);
    } else {
      var json := codec.stringify(value);
      LineFrameLong(json, blank, n, m);
      LineCompletes(codec, value, json[..n], LineFrame(json, blank)[n..m], blank[..m - |json| - 1],
                    json + ['\n'] + blank[..m - |json| - 1]);
    }
  }

  // ---- bytes and chunks

  datatype Connection<R> = Connection(byteLength: nat, pending: Content, reader: R)

  /** `push` of either decoder. */
  function Receive<R, V>(push: (R, string) -> (R, Outcome<V>), c: Connection<R>, chunk: Content): (Connection<R>, Outcome<V>) {
    if c.byteLength + |chunk| > MAX_FRAME_BYTES then (c.(byteLength := c.byteLength + |chunk|), Thrown(TooLarge))
    else
      var reading := Feed(c.pending, chunk);
      var (reader, outcome) := push(c.reader, reading.text);
      (Connection(c.byteLength + |chunk|, reading.pending, reader), outcome)
  }

  function ReceiveAll<R, V>(push: (R, string) -> (R, Outcome<V>), c: Connection<R>, chunks: seq<Content>): (Connection<R>, seq<Outcome<V>>)
    decreases |chunks|
  {
    if chunks == [] then (c, [])
    else
      var (next, outcome) := Receive(push, c, chunks[0]);
      var (last, outcomes) := ReceiveAll(push, next, chunks[1..]);
      (last, [outcome] + outcomes)
  }

  /** The values that come out, each as often as it does. */
  function Values<V(==)>(outcomes: seq<Outcome<V>>, nothing: V): seq<V> {
    if outcomes == [] then []
    else (if outcomes[0].Returned? && outcomes[0].value != nothing then [outcomes[0].value] else []) + Values(outcomes[1..], nothing)
  }

  predicate NoneThrown<V>(outcomes: seq<Outcome<V>>) {
    forall i :: 0 <= i < |outcomes| ==> outcomes[i].Returned?
  }

  /** Pushing along the text moves the reader along its positions, and gives the value when it passes `due`. */
  ghost predicate Along<R, V>(push: (R, string) -> (R, Outcome<V>), at: nat -> R, text: string, value: V, nothing: V, due: nat) {
    forall n: nat, m: nat :: n <= m <= |text| ==> push(at(n), text[n..m]) == (at(m), Returned(if n < due <= m then value else nothing))
  }

  /** How many characters the first `b` bytes of the text give. */
  function Read(text: string, b: nat): (n: nat)
    requires b <= |Bytes(text)|
  {
    |Feed([], Bytes(text)[..b]).text|
  }

  lemma ReadBounds(text: string, b: nat)
    requires b <= |Bytes(text)|
    ensures Read(text, b) <= |text| && Feed([], Bytes(text)[..b]).text == text[..Read(text, b)]
    ensures Read(text, 0) == 0 && Read(text, |Bytes(text)|) == |text|
  {
    FeedPrefix(text, b);
    FeedPrefix(text, |Bytes(text)|);
  }

  function ConnectionAt<R>(at: nat -> R, text: string, b: nat): Connection<R>
    requires b <= |Bytes(text)|
  {
    Connection(b, Feed([], Bytes(text)[..b]).pending, at(Read(text, b)))
  }

  /** The bytes from `a` to `b` give the characters between. */
  lemma FeedBetween(text: string, a: nat, b: nat)
    requires a <= b <= |Bytes(text)|
    ensures Read(text, a) <= Read(text, b) <= |text|
    ensures Feed(Feed([], Bytes(text)[..a]).pending, Bytes(text)[a..b])
            == Reading(text[Read(text, a)..Read(text, b)], Feed([], Bytes(text)[..b]).pending)
  {
    var bytes := Bytes(text);
    PrefixSlice(bytes, a, b);
    FeedConcat([], bytes[..a], bytes[a..b]);
    ReadBounds(text, a);
    ReadBounds(text, b);
    var first, rest := Feed([], bytes[..a]), Feed(Feed([], bytes[..a]).pending, bytes[a..b]);
    assert first.text + rest.text == text[..Read(text, b)];
    SliceOf(first.text, rest.text, text, Read(text, b));
  }

  lemma SliceOf<T>(first: seq<T>, rest: seq<T>, whole: seq<T>, m: nat)
    requires m <= |whole| && first + rest == whole[..m]
    ensures |first| <= m && rest == whole[|first|..m]
  {
    assert rest == (first + rest)[|first|..];
  }

  lemma ReceiveAlong<R, V>(push: (R, string) -> (R, Outcome<V>), at: nat -> R, text: string, value: V, nothing: V, due: nat, a: nat, b: nat)
    requires Along(push, at, text, value, nothing, due) && a <= b <= |Bytes(text)| <= MAX_FRAME_BYTES
    ensures Receive(push, ConnectionAt(at, text, a), Bytes(text)[a..b])
            == (ConnectionAt(at, text, b), Returned(if Read(text, a) < due <= Read(text, b) then value else nothing))
    ensures Read(text, a) <= Read(text, b)
  {
    FeedBetween(text, a, b);
  }

  lemma ValuesCons<V>(first: Outcome<V>, rest: seq<Outcome<V>>, nothing: V)
    ensures Values([first] + rest, nothing) == (if first.Returned? && first.value != nothing then [first.value] else []) + Values(rest, nothing)
    ensures NoneThrown([first] + rest) <==> first.Returned? && NoneThrown(rest)
  {
    assert ([first] + rest)[1..] == rest;
    if NoneThrown([first] + rest) {
      forall i | 0 <= i < |rest| ensures rest[i].Returned? {
        assert ([first] + rest)[i + 1] == rest[i];
      }
    }
  }

  /** The first chunk, and the others. */
  lemma ReceiveAllCons<R, V>(push: (R, string) -> (R, Outcome<V>), c: Connection<R>, chunks: seq<Content>, nothing: V)
    requires chunks != []
    ensures var (next, outcome) := Receive(push, c, chunks[0]);
            var (last, outcomes) := ReceiveAll(push, next, chunks[1..]);
            var (end, all) := ReceiveAll(push, c, chunks);
            && end == last && (NoneThrown(all) <==> outcome.Returned? && NoneThrown(outcomes))
            && Values(all, nothing)
               == (if outcome.Returned? && outcome.value != nothing then [outcome.value] else []) + Values(outcomes, nothing)
  {
    var (next, outcome) := Receive(push, c, chunks[0]);
    ValuesCons(outcome, ReceiveAll(push, next, chunks[1..]).1, nothing);
  }

  /** The chunks bring the connection from byte `a` to byte `b`, and the value out where character `due` lies between. */
  ghost predicate Brings<R, V>(push: (R, string) -> (R, Outcome<V>), at: nat -> R, text: string, value: V, nothing: V, due: nat,
                                     chunks: seq<Content>, a: nat, b: nat)
    requires a <= |Bytes(text)| && b <= |Bytes(text)|
  {
    var (last, outcomes) := ReceiveAll(push, ConnectionAt(at, text, a), chunks);
    && last == ConnectionAt(at, text, b) && NoneThrown(outcomes)
    && Values(outcomes, nothing) == (if Read(text, a) < due <= Read(text, b) then [value] else [])
    && Read(text, a) <= Read(text, b)
  }

  lemma BringsFirst<R, V>(push: (R, string) -> (R, Outcome<V>), at: nat -> R, text: string, value: V, nothing: V, due: nat,
                          chunks: seq<Content>, a: nat, c: nat, b: nat)
    requires chunks != [] && value != nothing && a <= |Bytes(text)| && c <= |Bytes(text)| && b <= |Bytes(text)|
    requires Receive(push, ConnectionAt(at, text, a), chunks[0])
             == (ConnectionAt(at, text, c), Returned(if Read(text, a) < due <= Read(text, c) then value else nothing))
    requires Read(text, a) <= Read(text, c) && Brings(push, at, text, value, nothing, due, chunks[1..], c, b)
    ensures Brings(push, at, text, value, nothing, due, chunks, a, b)
  {
    ReceiveAllCons(push, ConnectionAt(at, text, a), chunks, nothing);
  }

  /** However the bytes are cut into chunks, the value comes out once, with the chunk that brings character `due`. */
  lemma {:induction false} ReceivedOnce<R, V>(push: (R, string) -> (R, Outcome<V>), at: nat -> R, text: string, value: V, nothing: V, due: nat,
                                           chunks: seq<Content>, a: nat, b: nat)
    requires Along(push, at, text, value, nothing, due) && a <= b <= |Bytes(text)| <= MAX_FRAME_BYTES
    requires Flatten(chunks) == Bytes(text)[a..b] && value != nothing
    ensures Brings(push, at, text, value, nothing, due, chunks, a, b)
    decreases |chunks|
  {
    if chunks == [] {
      assert |Bytes(text)[a..b]| == b - a;
    } else {
      var c := a + |chunks[0]|;
      CutFirst(Bytes(text), chunks, a, b);
      ReceiveAlong(push, at, text, value, nothing, due, a, c);
      ReceivedOnce(push, at, text, value, nothing, due, chunks[1..], c, b);
      BringsFirst(push, at, text, value, nothing, due, chunks, a, c, b);
    }
  }

  lemma WholeReceivedOnce<R, V>(push: (R, string) -> (R, Outcome<V>), at: nat -> R, text: string, value: V, nothing: V, due: nat,
                               chunks: seq<Content>)
    requires Along(push, at, text, value, nothing, due) && 1 <= due <= |text| && value != nothing
    requires Flatten(chunks) == Bytes(text) && |Bytes(text)| <= MAX_FRAME_BYTES
    ensures var (last, outcomes) := ReceiveAll(push, Connection(0, [], at(0)), chunks);
            && last == Connection(|Bytes(text)|, [], at(|text|)) && NoneThrown(outcomes) && Values(outcomes, nothing) == [value]
  {
    ReadBounds(text, 0);
    FeedText(text);
    assert Bytes(text)[0..|Bytes(text)|] == Bytes(text) && Bytes(text)[..0] == [] && Bytes(text)[..|Bytes(text)|] == Bytes(text);
    ReceivedOnce(push, at, text, value, nothing, due, chunks, 0, |Bytes(text)|);
  }

  lemma CutFirst(bytes: Content, chunks: seq<Content>, a: nat, b: nat)
    requires chunks != [] && a <= b <= |bytes| && Flatten(chunks) == bytes[a..b]
    ensures a + |chunks[0]| <= b && chunks[0] == bytes[a..a + |chunks[0]|] && Flatten(chunks[1..]) == bytes[a + |chunks[0]|..b]
  {
    assert chunks[0] == bytes[a..b][..|chunks[0]|];
    assert Flatten(chunks[1..]) == bytes[a..b][|chunks[0]|..];
  }

  // ---- the promise of both

  /** `BoundedHostControlRequestDecoder.push` and `finish`. */
  function RequestPush<V(==)>(codec: Codec<V>): (Reader<V>, string) -> (Reader<V>, Outcome<V>) {
    (r, text) => Push(codec, r, text)
  }

  function RequestFinish<V>(codec: Codec<V>, c: Connection<Reader<V>>): Outcome<V> {
    var text := c.reader.text + if c.pending == [] then "" else [REPLACEMENT];
    if c.reader.committed && text == "" then Returned(codec.nothing) else Thrown(Unfinished)
  }

  function NewRequest<V>(codec: Codec<V>): Connection<Reader<V>> {
    Connection(0, [], Reader("", codec.nothing, false))
  }

  /** `BoundedNdjsonDecoder.push` and `finish`. */
  function LinePush<V>(codec: Codec<V>): (LineReader, string) -> (LineReader, Outcome<V>) {
    (r, text) => PushLine(codec, r, text)
  }

  function LineFinish<V>(codec: Codec<V>, c: Connection<LineReader>): Outcome<V> {
    FinishLine(codec, c.reader, if c.pending == [] then "" else [REPLACEMENT])
  }

  function NewLineReader(): Connection<LineReader> {
    Connection(0, [], LineReader("", false))
  }

  /** `encodeHostControlRequestFrame`; it throws when the frame is too large. */
  function EncodeRequest<V>(codec: Codec<V>, value: V): Option<string> {
    var frame := Frame(codec.stringify(value));
    if |Bytes(frame)| > MAX_FRAME_BYTES then None else Some(frame)
  }

  /** `encodeHostControlFrame`. */
  function EncodeResponse<V>(codec: Codec<V>, value: V): Option<string> {
    var frame := codec.stringify(value) + ['\n'];
    if |Bytes(frame)| > MAX_FRAME_BYTES then None else Some(frame)
  }

  function RequestAt<V(==)>(codec: Codec<V>, value: V): nat -> Reader<V> {
    var json := codec.stringify(value);
    (n: nat) => if n <= |Frame(json)| then ReaderAt(codec, json, value, n) else Reader("", value, true)
  }

  lemma RequestAlong<V>(codec: Codec<V>, value: V)
    requires Prints(codec, value) && value != codec.nothing
    ensures var frame := Frame(codec.stringify(value));
            Along(RequestPush(codec), RequestAt(codec, value), frame, value, codec.nothing, |frame|)
  {
    var frame := Frame(codec.stringify(value));
    forall n: nat, m: nat | n <= m <= |frame|
      ensures RequestPush(codec)(RequestAt(codec, value)(n), frame[n..m])
              == (RequestAt(codec, value)(m), Returned(if n < |frame| <= m then value else codec.nothing))
    {
      PushAlong(codec, value, n, m);
    }
  }

  /** A request that the encoder accepts arrives exactly once, over any chunks, and the connection ends in order. */
  lemma RequestRoundTrip<V>(codec: Codec<V>, value: V, chunks: seq<Content>)
    requires Prints(codec, value) && value != codec.nothing && EncodeRequest(codec, value).Some?
    requires Flatten(chunks) == Bytes(EncodeRequest(codec, value).value)
    ensures var (last, outcomes) := ReceiveAll(RequestPush(codec), NewRequest(codec), chunks);
            && NoneThrown(outcomes) && Values(outcomes, codec.nothing) == [value]
            && RequestFinish(codec, last) == Returned(codec.nothing)
  {
    var frame := EncodeRequest(codec, value).value;
    RequestAlong(codec, value);
    assert codec.stringify(value)[..0] == "";
    WholeReceivedOnce(RequestPush(codec), RequestAt(codec, value), frame, value, codec.nothing, |frame|, chunks);
  }

  /** The last chunk of a frame, cut anywhere, with further text: that text is dropped, unless it holds the marker
      again. */
  lemma TrailingInChunk<V>(codec: Codec<V>, value: V, extra: string, chunks: seq<Content>, b: nat)
    requires Prints(codec, value) && value != codec.nothing
    requires var bytes := Bytes(Frame(codec.stringify(value)));
             b < |bytes| && |bytes| + |Bytes(extra)| <= MAX_FRAME_BYTES && Flatten(chunks) == bytes[..b]
    ensures var bytes := Bytes(Frame(codec.stringify(value)));
            var (c, outcomes) := ReceiveAll(RequestPush(codec), NewRequest(codec), chunks);
            && NoneThrown(outcomes) && Values(outcomes, codec.nothing) == []
            && Receive(RequestPush(codec), c, bytes[b..] + Bytes(extra)).1
               == if HasMarkerLine(extra) then Thrown(SecondMarker) else Returned(value)
  {
    var frame, at := Frame(codec.stringify(value)), RequestAt(codec, value);
    RequestAlong(codec, value);
    ReadBounds(frame, 0);
    ReadShort(frame, b);
    assert codec.stringify(value)[..0] == "" && Bytes(frame)[0..b] == Bytes(frame)[..b] && Bytes(frame)[..0] == [];
    ReceivedOnce(RequestPush(codec), at, frame, value, codec.nothing, |frame|, chunks, 0, b);
    TrailingReceived(codec, value, extra, b);
  }

  /** A chunk behind a complete frame, cut anywhere, is refused as soon as it brings a character. */
  lemma TrailingLater<V>(codec: Codec<V>, value: V, chunks: seq<Content>, more: Content)
    requires Prints(codec, value) && value != codec.nothing && Flatten(chunks) == Bytes(Frame(codec.stringify(value)))
    requires |Flatten(chunks)| <= MAX_FRAME_BYTES
    ensures var (c, outcomes) := ReceiveAll(RequestPush(codec), NewRequest(codec), chunks);
            Receive(RequestPush(codec), c, more).1
            == if |Flatten(chunks)| + |more| > MAX_FRAME_BYTES then Thrown(TooLarge)
               else if Feed([], more).text != "" then Thrown(SecondRequest) else Returned(codec.nothing)
  {
    var frame := Frame(codec.stringify(value));
    RequestAlong(codec, value);
    assert codec.stringify(value)[..0] == "";
    WholeReceivedOnce(RequestPush(codec), RequestAt(codec, value), frame, value, codec.nothing, |frame|, chunks);
  }

  lemma TrailingReceived<V>(codec: Codec<V>, value: V, extra: string, b: nat)
    requires Prints(codec, value) && value != codec.nothing
    requires var bytes := Bytes(Frame(codec.stringify(value))); b < |bytes| && |bytes| + |Bytes(extra)| <= MAX_FRAME_BYTES
    ensures var frame := Frame(codec.stringify(value));
            Receive(RequestPush(codec), ConnectionAt(RequestAt(codec, value), frame, b), Bytes(frame)[b..] + Bytes(extra)).1
            == if HasMarkerLine(extra) then Thrown(SecondMarker) else Returned(value)
  {
    var frame := Frame(codec.stringify(value));
    ReadShort(frame, b);
    ReadBehind(frame, extra, b);
    TrailingText(codec, value, extra, Read(frame, b));
  }

  lemma ReadShort(text: string, b: nat)
    requires b < |Bytes(text)|
    ensures Read(text, b) < |text|
  {
    ReadBounds(text, b);
    FeedPrefix(text, b);
  }

  /** A request cut short anywhere, whatever its chunks: nothing comes out, and its end is refused. */
  lemma RequestCutShort<V>(codec: Codec<V>, value: V, chunks: seq<Content>, b: nat)
    requires Prints(codec, value) && value != codec.nothing
    requires var bytes := Bytes(Frame(codec.stringify(value))); b < |bytes| <= MAX_FRAME_BYTES && Flatten(chunks) == bytes[..b]
    ensures var (last, outcomes) := ReceiveAll(RequestPush(codec), NewRequest(codec), chunks);
            && NoneThrown(outcomes) && Values(outcomes, codec.nothing) == []
            && RequestFinish(codec, last) == Thrown(Unfinished)
  {
    var frame, at := Frame(codec.stringify(value)), RequestAt(codec, value);
    RequestAlong(codec, value);
    ReadBounds(frame, 0);
    ReadShort(frame, b);
    assert codec.stringify(value)[..0] == "" && Bytes(frame)[0..b] == Bytes(frame)[..b] && Bytes(frame)[..0] == [];
    ReceivedOnce(RequestPush(codec), at, frame, value, codec.nothing, |frame|, chunks, 0, b);
  }

  lemma SliceAcross<T>(first: seq<T>, more: seq<T>, b: nat)
    requires b <= |first|
    ensures (first + more)[..b] == first[..b] && (first + more)[b..|first + more|] == first[b..] + more
  {
  }

  /** Bytes that end a text and bring another behind it. */
  lemma ReadBehind(text: string, extra: string, b: nat)
    requires b <= |Bytes(text)|
    ensures Read(text, b) <= |text|
    ensures Feed(Feed([], Bytes(text)[..b]).pending, Bytes(text)[b..] + Bytes(extra)).text == text[Read(text, b)..] + extra
  {
    BytesConcat(text, extra);
    SliceAcross(Bytes(text), Bytes(extra), b);
    FeedBetween(text + extra, b, |Bytes(text + extra)|);
    ReadAll(text + extra);
    ReadBounds(text, b);
    SliceAcross(text, extra, Read(text, b));
  }

  lemma ReadAll(text: string)
    ensures Read(text, |Bytes(text)|) == |text|
  {
    ReadBounds(text, |Bytes(text)|);
  }

  function LineAt<V>(codec: Codec<V>, value: V, blank: string): nat -> LineReader {
    var json := codec.stringify(value);
    (n: nat) => if n <= |LineFrame(json, blank)| then LineReaderAt(json, blank, n) else LineReader(blank, true)
  }

  lemma LineAlong<V>(codec: Codec<V>, value: V, blank: string)
    requires Prints(codec, value) && Blank(blank)
    ensures var json := codec.stringify(value);
            Along(LinePush(codec), LineAt(codec, value, blank), LineFrame(json, blank), value, codec.nothing, |json| + 1)
  {
    var json := codec.stringify(value);
    var frame := LineFrame(json, blank);
    forall n: nat, m: nat | n <= m <= |frame|
      ensures LinePush(codec)(LineAt(codec, value, blank)(n), frame[n..m])
              == (LineAt(codec, value, blank)(m), Returned(if n < |json| + 1 <= m then value else codec.nothing))
    {
      if n > |json| {
        PushLineBehind(codec, json, blank, n, m);
      } else {
        PushLineTo(codec, value, blank, n, m);
      }
    }
  }

  /** A response, whatever white space follows it, arrives exactly once, over any chunks. */
  lemma ResponseArrives<V>(codec: Codec<V>, value: V, blank: string, chunks: seq<Content>)
    requires Prints(codec, value) && value != codec.nothing && Blank(blank)
    requires Flatten(chunks) == Bytes(LineFrame(codec.stringify(value), blank)) && |Flatten(chunks)| <= MAX_FRAME_BYTES
    ensures var (last, outcomes) := ReceiveAll(LinePush(codec), NewLineReader(), chunks);
            && NoneThrown(outcomes) && Values(outcomes, codec.nothing) == [value]
            && LineFinish(codec, last) == Returned(codec.nothing)
  {
    var json := codec.stringify(value);
    var frame := LineFrame(json, blank);
    LineAlong(codec, value, blank);
    assert json[..0] == "";
    WholeReceivedOnce(LinePush(codec), LineAt(codec, value, blank), frame, value, codec.nothing, |json| + 1, chunks);
    TrimBlank(blank);
    assert blank[..|blank|] == blank && blank + "" == blank;
  }

  lemma ReadJson(json: string, blank: string)
    ensures var frame := LineFrame(json, blank);
            && |Bytes(json)| <= |Bytes(frame)| && Bytes(frame)[..|Bytes(json)|] == Bytes(json)
            && Read(frame, |Bytes(json)|) == |json| && Feed([], Bytes(json)).pending == []
  {
    assert LineFrame(json, blank) == json + (['\n'] + blank);
    BytesConcat(json, ['\n'] + blank);
    FeedText(json);
    assert Bytes(LineFrame(json, blank))[..|Bytes(json)|] == Bytes(json);
  }

  /** A response that ends without a line break comes out at the end of the connection, however it is cut. */
  lemma ResponseWithoutBreak<V>(codec: Codec<V>, value: V, chunks: seq<Content>)
    requires Prints(codec, value) && value != codec.nothing
    requires Flatten(chunks) == Bytes(codec.stringify(value)) && |Bytes(LineFrame(codec.stringify(value), ""))| <= MAX_FRAME_BYTES
    ensures var (last, outcomes) := ReceiveAll(LinePush(codec), NewLineReader(), chunks);
            NoneThrown(outcomes) && Values(outcomes, codec.nothing) == [] && LineFinish(codec, last) == Returned(value)
  {
    var json := codec.stringify(value);
    var frame, b := LineFrame(json, ""), |Bytes(json)|;
    LineAlong(codec, value, "");
    ReadBounds(frame, 0);
    ReadJson(json, "");
    assert json[..0] == "" && Bytes(frame)[0..b] == Bytes(frame)[..b] && Bytes(frame)[..0] == [];
    ReceivedOnce(LinePush(codec), LineAt(codec, value, ""), frame, value, codec.nothing, |json| + 1, chunks, 0, b);
    assert json[..|json|] == json && json + "" == json;
  }

  /** A connection that brings nothing but white space ends in order, with nothing. */
  lemma BlankResponse<V>(codec: Codec<V>, blank: string)
    requires Blank(blank)
    ensures FinishLine(codec, LineReader(blank, false), "") == Returned(codec.nothing)
    ensures FinishLine(codec, LineReader(blank, true), "") == Returned(codec.nothing)
  {
    TrimBlank(blank);
    assert blank + "" == blank;
  }

  /** What the encoder of responses prints arrives exactly once. */
  lemma ResponseRoundTrip<V>(codec: Codec<V>, value: V, chunks: seq<Content>)
    requires Prints(codec, value) && value != codec.nothing && EncodeResponse(codec, value).Some?
    requires Flatten(chunks) == Bytes(EncodeResponse(codec, value).value)
    ensures var (last, outcomes) := ReceiveAll(LinePush(codec), NewLineReader(), chunks);
            && NoneThrown(outcomes) && Values(outcomes, codec.nothing) == [value]
            && LineFinish(codec, last) == Returned(codec.nothing)
  {
    assert LineFrame(codec.stringify(value), "") == EncodeResponse(codec, value).value;
    ResponseArrives(codec, value, "", chunks);
  }

  /** Either decoder refuses for size exactly what exceeds the limit in all. */
  lemma {:induction false} TooLargeExactly<R(!new), V>(push: (R, string) -> (R, Outcome<V>), c: Connection<R>, chunks: seq<Content>)
    requires c.byteLength <= MAX_FRAME_BYTES && (forall r: R, text: string :: push(r, text).1 != Thrown(TooLarge))
    ensures Thrown(TooLarge) in ReceiveAll(push, c, chunks).1 <==> c.byteLength + |Flatten(chunks)| > MAX_FRAME_BYTES
    decreases |chunks|
  {
    if chunks != [] {
      var (next, outcome) := Receive(push, c, chunks[0]);
      if next.byteLength <= MAX_FRAME_BYTES {
        assert outcome == push(c.reader, Feed(c.pending, chunks[0]).text).1;
        TooLargeExactly(push, next, chunks[1..]);
      }
    }
  }

  lemma {:induction false} ConsumeNeverTooLarge<V>(codec: Codec<V>, r: Reader<V>)
    ensures Consume(codec, r).1 != Thrown(TooLarge)
    decreases |r.text|
  {
    var i := LineEnd(r.text);
    if i < |r.text| {
      if r.request == codec.nothing {
        var value := codec.parse(TrimEnd(r.text[..i]));
        if value.Some? {
          ConsumeNeverTooLarge(codec, r.(text := r.text[i + 1..], request := value.value));
        }
      }
    }
  }

  /** The encoder of requests refuses exactly the values whose frame the decoder would refuse for size. */
  lemma EncoderMatchesLimit<V(!new)>(codec: Codec<V>, value: V, chunks: seq<Content>)
    requires Flatten(chunks) == Bytes(Frame(codec.stringify(value)))
    ensures EncodeRequest(codec, value).None? <==> Thrown(TooLarge) in ReceiveAll(RequestPush(codec), NewRequest(codec), chunks).1
  {
    forall r: Reader<V>, text: string ensures RequestPush(codec)(r, text).1 != Thrown(TooLarge) {
      ConsumeNeverTooLarge(codec, r.(text := r.text + text));
    }
    TooLargeExactly(RequestPush(codec), NewRequest(codec), chunks);
  }

  // ---- the decoders

  class RequestDecoder<V(==)> {
    const codec: Codec<V>
    const decoder: StringDecoder
    var byteLength: nat
    var text: string
    var request: V
    var committed: bool

    function View(): Connection<Reader<V>>
      reads this, decoder
    {
      Connection(byteLength, decoder.pending, Reader(text, request, committed))
    }

    constructor (codec: Codec<V>)
      ensures fresh(decoder) && this.codec == codec && View() == NewRequest(codec)
    {
      this.codec, byteLength, text, request, committed := codec, 0, "", codec.nothing, false;
      decoder := new StringDecoder();
    }

    /** The loop of `push`. */
    method ReadLines() returns (outcome: Outcome<V>)
      modifies this`text, this`request, this`committed
      ensures !old(committed) ==> (Reader(text, request, committed), outcome) == Consume(codec, Reader(old(text), old(request), old(committed)))
    {
      while '\n' in text
        invariant committed == old(committed)
        invariant Consume(codec, Reader(text, request, committed)) == Consume(codec, Reader(old(text), old(request), old(committed)))
        decreases |text|
      {
        var i := LineEnd(text);
        var line := TrimEnd(text[..i]);
        text := text[i + 1..];
        if request == codec.nothing {
          var value := codec.parse(line);
          if value.None? {
            return Thrown(Malformed);
          }
          request := value.value;
        } else if line != END_MARKER {
          return Thrown(NotTerminated);
        } else if HasMarkerLine(text) {
          return Thrown(SecondMarker);
        } else {
          committed, text := true, "";
          return Returned(request);
        }
      }
      outcome := Returned(codec.nothing);
    }

    method Push(chunk: Content) returns (outcome: Outcome<V>)
      modifies this, decoder
      ensures (View(), outcome) == Receive(RequestPush(codec), old(View()), chunk)
    {
      byteLength := byteLength + |chunk|;
      if byteLength > MAX_FRAME_BYTES {
        return Thrown(TooLarge);
      }
      var read := decoder.Write(chunk);
      text := text + read;
      if committed {
        outcome := if text != "" then Thrown(SecondRequest) else Returned(codec.nothing);
      } else {
        outcome := ReadLines();
      }
    }

    method Finish() returns (outcome: Outcome<V>)
      modifies this, decoder
      ensures outcome == RequestFinish(codec, old(View()))
    {
      var read := decoder.End();
      text := text + read;
      outcome := if committed && text == "" then Returned(codec.nothing) else Thrown(Unfinished);
    }
  }

  class NdjsonDecoder<V> {
    const codec: Codec<V>
    const decoder: StringDecoder
    var byteLength: nat
    var text: string
    var frameComplete: bool

    function View(): Connection<LineReader>
      reads this, decoder
    {
      Connection(byteLength, decoder.pending, LineReader(text, frameComplete))
    }

    constructor (codec: Codec<V>)
      ensures fresh(decoder) && this.codec == codec && View() == NewLineReader()
    {
      this.codec, byteLength, text, frameComplete := codec, 0, "", false;
      decoder := new StringDecoder();
    }

    method Push(chunk: Content) returns (outcome: Outcome<V>)
      modifies this, decoder
      ensures (View(), outcome) == Receive(LinePush(codec), old(View()), chunk)
    {
      byteLength := byteLength + |chunk|;
      if byteLength > MAX_FRAME_BYTES {
        return Thrown(TooLarge);
      }
      var read := decoder.Write(chunk);
      text := text + read;
      if frameComplete {
        return if Trim(text) != "" then Thrown(SecondRequest) else Returned(codec.nothing);
      }
      var i := LineEnd(text);
      if i == |text| {
        return Returned(codec.nothing);
      }
      var line, trailing := TrimEnd(text[..i]), text[i + 1..];
      if Trim(trailing) != "" {
        return Thrown(SecondRequest);
      }
      frameComplete, text := true, trailing;
      outcome := Parsed(codec, line);
    }

    method Finish() returns (outcome: Outcome<V>)
      modifies this, decoder
      ensures outcome == LineFinish(codec, old(View()))
    {
      var read := decoder.End();
      text := text + read;
      if frameComplete {
        return if Trim(text) != "" then Thrown(SecondRequest) else Returned(codec.nothing);
      }
      if Trim(text) == "" {
        return Returned(codec.nothing);
      }
      frameComplete := true;
      outcome := Parsed(codec, Trim(text));
    }
  }
}
