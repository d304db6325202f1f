/** UTF-8 (RFC 3629): characters to bytes, and the streaming decoder that text protocols read with (`StringDecoder`
    of Node.js), which keeps the start of a character over the end of a chunk. */
module Utf8 {
  import opened Wrappers
  import Sequences

  const REPLACEMENT: char := '\U{FFFD}'

  // ---- one character

  function Lead(first: int, n: int): Byte
    requires 0 <= first + n < 256
  {
    (first + n) as Byte
  }

  function Tail(n: int): Byte
    requires 0 <= n
  {
    (0x80 + n % 64) as Byte
  }

  function Size(c: char): (n: nat)
    ensures 1 <= n <= 4
  {
    var n := c as int;
    if n < 0x80 then 1 else if n < 0x800 then 2 else if n < 0x10000 then 3 else 4
  }

  function Encoded(c: char): (bytes: Content)
    ensures |bytes| == Size(c)
  {
    var n := c as int;
    if n < 0x80 then [Lead(0, n)]
    else if n < 0x800 then [Lead(0xC0, n / 64), Tail(n)]
    else if n < 0x10000 then [Lead(0xE0, n / 4096), Tail(n / 64), Tail(n)]
    else [Lead(0xF0, n / 262144), Tail(n / 4096), Tail(n / 64), Tail(n)]
  }

  predicate IsTail(b: Byte) {
    0x80 <= b < 0xC0
  }

  /** The second byte that may follow a lead byte: no longer form than needed, no surrogate, nothing beyond U+10FFFF. */
  predicate Second(lead: Byte, b: Byte) {
    IsTail(b) && (lead == 0xE0 ==> b >= 0xA0) && (lead == 0xED ==> b < 0xA0) && (lead == 0xF0 ==> b >= 0x90) && (lead == 0xF4 ==> b < 0x90)
  }

  /** The start of a character whose end is still to come. */
  predicate Partial(p: Content) {
    || (|p| == 1 && 0xC2 <= p[0] <= 0xF4)
    || (|p| == 2 && 0xE0 <= p[0] <= 0xF4 && Second(p[0], p[1]))
    || (|p| == 3 && 0xF0 <= p[0] <= 0xF4 && Second(p[0], p[1]) && IsTail(p[2]))
  }

  predicate Complete(p: Content) {
    || (|p| == 1 && p[0] < 0x80)
    || (|p| == 2 && 0xC2 <= p[0] < 0xE0 && IsTail(p[1]))
    || (|p| == 3 && 0xE0 <= p[0] < 0xF0 && Second(p[0], p[1]) && IsTail(p[2]))
    || (|p| == 4 && 0xF0 <= p[0] <= 0xF4 && Second(p[0], p[1]) && IsTail(p[2]) && IsTail(p[3]))
  }

  function Value(p: Content): (n: int)
    requires Complete(p)
    ensures 0 <= n < 0xD800 || 0xE000 <= n < 0x110000
  {
    if |p| == 1 then p[0] as int
    else if |p| == 2 then (p[0] as int - 0xC0) * 64 + (p[1] as int - 0x80)
    else if |p| == 3 then (p[0] as int - 0xE0) * 4096 + (p[1] as int - 0x80) * 64 + (p[2] as int - 0x80)
    else (p[0] as int - 0xF0) * 262144 + (p[1] as int - 0x80) * 4096 + (p[2] as int - 0x80) * 64 + (p[3] as int - 0x80)
  }

  function Decoded(p: Content): char
    requires Complete(p)
  {
    Value(p) as char
  }

  lemma Digits(n: nat)
    ensures n == n / 64 * 64 + n % 64 && n / 64 == n / 4096 * 64 + n / 64 % 64 && n / 4096 == n / 262144 * 64 + n / 4096 % 64
  {
  }

  /** The digits to the base 64 are unique. */
  lemma DigitsUnique(high: nat, low: nat)
    requires low < 64
    ensures (high * 64 + low) / 64 == high && (high * 64 + low) % 64 == low
  {
  }

  lemma Nested(n: nat)
    ensures n / 4096 == n / 64 / 64 && n / 262144 == n / 64 / 64 / 64
  {
  }

  lemma DecodedEncoded(c: char)
    ensures Complete(Encoded(c)) && Decoded(Encoded(c)) == c
  {
    Digits(c as int);
  }

  lemma EncodedDecoded(p: Content)
    requires Complete(p)
    ensures Encoded(Decoded(p)) == p
  {
    if |p| == 1 {
    } else if |p| == 2 {
      DigitsUnique(p[0] as int - 0xC0, p[1] as int - 0x80);
    } else if |p| == 3 {
      EncodedDecoded3(p);
    } else {
      EncodedDecoded4(p);
    }
  }

  lemma EncodedDecoded3(p: Content)
    requires Complete(p) && |p| == 3
    ensures Encoded(Decoded(p)) == p
  {
    var q := (p[0] as int - 0xE0) * 64 + (p[1] as int - 0x80);
    Nested(Value(p));
    DigitsUnique(q, p[2] as int - 0x80);
    DigitsUnique(p[0] as int - 0xE0, p[1] as int - 0x80);
  }

  lemma EncodedDecoded4(p: Content)
    requires Complete(p) && |p| == 4
    ensures Encoded(Decoded(p)) == p
  {
    var r := (p[0] as int - 0xF0) * 64 + (p[1] as int - 0x80);
    var q := r * 64 + (p[2] as int - 0x80);
    Nested(Value(p));
    DigitsUnique(q, p[3] as int - 0x80);
    DigitsUnique(r, p[2] as int - 0x80);
    DigitsUnique(p[0] as int - 0xF0, p[1] as int - 0x80);
  }

  /** A character's bytes up to any but the last are the start of a character, and not a whole one. */
  lemma EncodedPartial(c: char, k: nat)
    requires 0 < k < Size(c)
    ensures Partial(Encoded(c)[..k]) && !Complete(Encoded(c)[..k])
  {
  }

  // ---- whole texts

  function Bytes(text: string): Content {
    if text == "" then [] else Encoded(text[0]) + Bytes(text[1..])
  }

  lemma {:induction false} BytesConcat(a: string, b: string)
    ensures Bytes(a + b) == Bytes(a) + Bytes(b)
  {
    if a == "" {
      assert a + b == b;
    } else {
      assert (a + b)[0] == a[0] && (a + b)[1..] == a[1..] + b;
      BytesConcat(a[1..], b);
      Sequences.Associative(Encoded(a[0]), Bytes(a[1..]), Bytes(b));
    }
  }

  // ---- streaming

  /** What was read so far, and the start of a character whose end is to come. */
  datatype Reading = Reading(text: string, pending: Content)

  /** A byte either ends a character, or belongs to one, or breaks one: what is broken is replaced, and a byte that
      breaks the start of another character is read again on its own. */
  function Step(pending: Content, b: Byte): Reading
    decreases |pending|
  {
    var p := pending + [b];
    if Complete(p) then Reading([Decoded(p)], [])
    else if Partial(p) then Reading("", p)
    else if pending == [] then Reading([REPLACEMENT], [])
    else var again := Step([], b); Reading([REPLACEMENT] + again.text, again.pending)
  }

  function Feed(pending: Content, bytes: Content): Reading
    decreases |bytes|
  {
    if bytes == [] then Reading("", pending)
    else
      var first := Step(pending, bytes[0]);
      var rest := Feed(first.pending, bytes[1..]);
      Reading(first.text + rest.text, rest.pending)
  }

  /** Whatever the bytes, it does not matter where a chunk ends. */
  lemma {:induction false} FeedConcat(pending: Content, a: Content, b: Content)
    ensures var first := Feed(pending, a);
            var rest := Feed(first.pending, b);
            Feed(pending, a + b) == Reading(first.text + rest.text, rest.pending)
    decreases |a|
  {
    if a == [] {
      assert a + b == b;
    } else {
      assert (a + b)[0] == a[0] && (a + b)[1..] == a[1..] + b;
      var head := Step(pending, a[0]);
      FeedConcat(head.pending, a[1..], b);
      var first := Feed(head.pending, a[1..]);
      Sequences.Associative(head.text, first.text, Feed(first.pending, b).text);
    }
  }

  /** From the first `k` bytes of a character, its other bytes give the character. */
  lemma {:induction false} FeedCharacter(c: char, k: nat)
    requires k < Size(c)
    ensures Feed(Encoded(c)[..k], Encoded(c)[k..]) == Reading([c], [])
    decreases Size(c) - k
  {
    var e := Encoded(c);
    assert e[..k] + [e[k]] == e[..k + 1];
    assert e[k..][0] == e[k] && e[k..][1..] == e[k + 1..];
    if k + 1 < Size(c) {
      EncodedPartial(c, k + 1);
      FeedCharacter(c, k + 1);
      assert "" + [c] == [c];
    } else {
      assert e[..k + 1] == e;
      DecodedEncoded(c);
      assert [c] + "" == [c];
    }
  }

  lemma {:induction false} FeedText(text: string)
    ensures Feed([], Bytes(text)) == Reading(text, [])
  {
    if text != "" {
      FeedText(text[1..]);
      FeedCharacter(text[0], 0);
      assert Encoded(text[0])[..0] == [] && Encoded(text[0])[0..] == Encoded(text[0]);
      FeedConcat([], Encoded(text[0]), Bytes(text[1..]));
      assert text == [text[0]] + text[1..];
    }
  }

  lemma StepSilent(pending: Content, b: Byte)
    ensures Step(pending, b).text == "" ==> Step(pending, b).pending == pending + [b]
  {
  }

  /** What yields no text is kept. */
  lemma {:induction false} FeedSilent(pending: Content, bytes: Content)
    requires Feed(pending, bytes).text == ""
    ensures Feed(pending, bytes).pending == pending + bytes
    decreases |bytes|
  {
    if bytes != [] {
      StepSilent(pending, bytes[0]);
      FeedSilent(pending + [bytes[0]], bytes[1..]);
      assert pending + [bytes[0]] + bytes[1..] == pending + bytes;
    }
  }

  /** The first `k` bytes of a text give a prefix of it, the whole text only with the last byte. */
  lemma FeedPrefix(text: string, k: nat)
    requires k <= |Bytes(text)|
    ensures Feed([], Bytes(text)[..k]).text <= text
    ensures Feed([], Bytes(text)[..k]).text == text <==> k == |Bytes(text)|
  {
    var bytes := Bytes(text);
    var first := Feed([], bytes[..k]);
    FeedText(text);
    assert bytes == bytes[..k] + bytes[k..];
    FeedConcat([], bytes[..k], bytes[k..]);
    var rest := Feed(first.pending, bytes[k..]);
    assert text == first.text + rest.text;
    if first.text == text {
      assert rest.text == "";
      FeedSilent(first.pending, bytes[k..]);
    }
    if k == |bytes| {
      assert bytes[..k] == bytes;
    }
  }

  /** `StringDecoder`. */
  class StringDecoder {
    var pending: Content

    constructor ()
      ensures pending == []
    {
      pending := [];
    }

    method Write(chunk: Content) returns (text: string)
      modifies this
      ensures Reading(text, pending) == Feed(old(pending), chunk)
    {
      text := "";
      for i := 0 to |chunk|
        invariant var rest := Feed(pending, chunk[i..]);
                  Feed(old(pending), chunk) == Reading(text + rest.text, rest.pending)
      {
        assert chunk[i..][1..] == chunk[i + 1..];
        var step := Step(pending, chunk[i]);
        ghost var rest := Feed(step.pending, chunk[i + 1..]);
        Sequences.Associative(text, step.text, rest.text);
        text := text + step.text;
        pending := step.pending;
      }
      assert text + "" == text;
    }

    method End() returns (text: string)
      modifies this
      ensures text == if old(pending) == [] then "" else [REPLACEMENT]
      ensures pending == []
    {
      text := if pending == [] then "" else [REPLACEMENT];
      pending := [];
    }
  }

  // ---- cutting

  /** The first byte of a character is not a tail byte; every other is. */
  lemma EncodedTails(c: char, k: nat)
    requires k < Size(c)
    ensures IsTail(Encoded(c)[k]) <==> k > 0
  {
  }

  /** The longest prefix of whole characters that takes at most `max` bytes. */
  function Fit(text: string, max: nat): string {
    if text != "" && Size(text[0]) <= max then [text[0]] + Fit(text[1..], max - Size(text[0])) else ""
  }

  lemma {:induction false} FitIsLongest(text: string, max: nat, n: nat)
    requires n <= |text|
    ensures Fit(text, max) <= text && |Bytes(Fit(text, max))| <= max
    ensures |Bytes(text[..n])| <= max <==> n <= |Fit(text, max)|
  {
    if text != "" {
      if n > 0 {
        assert text[..n][0] == text[0] && text[..n][1..] == text[1..][..n - 1];
      }
      if Size(text[0]) <= max {
        FitIsLongest(text[1..], max - Size(text[0]), if n > 0 then n - 1 else 0);
        assert text == [text[0]] + text[1..];
        assert Fit(text, max)[1..] == Fit(text[1..], max - Size(text[0]));
      }
    }
  }

  /** Back over tail bytes. */
  function Back(bytes: Content, end: nat): (k: nat)
    requires end < |bytes|
    ensures k <= end
  {
    if end > 0 && IsTail(bytes[end]) then Back(bytes, end - 1) else end
  }

  lemma {:induction false} BackInCharacter(c: char, rest: Content, end: nat)
    requires end < Size(c)
    ensures Back(Encoded(c) + rest, end) == 0
  {
    EncodedTails(c, end);
    if end > 0 {
      BackInCharacter(c, rest, end - 1);
    }
  }

  lemma {:induction false} BackBehind(before: Content, rest: Content, j: nat)
    requires j < |rest| && !IsTail(rest[0])
    ensures Back(before + rest, |before| + j) == |before| + Back(rest, j)
  {
    if j > 0 {
      BackBehind(before, rest, j - 1);
    }
  }

  lemma FirstIsNoTail(text: string)
    requires text != ""
    ensures Bytes(text) != [] && !IsTail(Bytes(text)[0])
  {
    EncodedTails(text[0], 0);
  }

  lemma {:induction false} BackFits(text: string, end: nat)
    requires end < |Bytes(text)|
    ensures Bytes(text)[..Back(Bytes(text), end)] == Bytes(Fit(text, end))
  {
    var first, rest := Encoded(text[0]), text[1..];
    if end < |first| {
      BackInCharacter(text[0], Bytes(rest), end);
    } else {
      FirstIsNoTail(rest);
      BackBehind(first, Bytes(rest), end - |first|);
      BackFits(rest, end - |first|);
      assert (first + Bytes(rest))[..|first| + Back(Bytes(rest), end - |first|)] == first + Bytes(rest)[..Back(Bytes(rest), end - |first|)];
    }
  }

  lemma {:induction false} FitAll(text: string, max: nat)
    requires |Bytes(text)| <= max
    ensures Fit(text, max) == text
  {
    if text != "" {
      FitAll(text[1..], max - Size(text[0]));
    }
  }

  /** `truncateUtf8` (apps/daemon/src/infrastructure/git.ts). */
  method Truncate(value: string, maxBytes: nat) returns (kept: string)
    ensures kept == Fit(value, maxBytes)
  {
    var bytes := Bytes(value);
    if |bytes| <= maxBytes {
      FitAll(value, maxBytes);
      return value;
    }
    var end := maxBytes;
    while end > 0 && IsTail(bytes[end])
      invariant 0 <= end <= maxBytes && Back(bytes, end) == Back(bytes, maxBytes)
    {
      end := end - 1;
    }
    BackFits(value, maxBytes);
    FeedText(Fit(value, maxBytes));
    kept := Feed([], bytes[..end]).text;
  }
}
