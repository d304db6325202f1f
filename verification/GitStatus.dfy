/** Porcelain status records and quoted paths (apps/daemon/src/infrastructure/git.ts); the cut of an oversized diff
    is `Utf8.Truncate`. */
module GitStatus {
  import opened Wrappers
  import opened Text

  const MAX_CHANGED_FILES: nat := 2000

  datatype FileStatus = Unmerged | Untracked | Deleted | Renamed | Copied | Added | Modified

  /** What `git status --porcelain -z` prints for a path: a rename or copy names the previous path in a record of
      its own. */
  datatype Change = Change(status: string, path: string, previous: string)

  predicate Moves(status: string) {
    'R' in status || 'C' in status
  }

  predicate WellFormed(c: Change) {
    && |c.status| == 2 && c.path != "" && '\0' !in c.status && '\0' !in c.path && '\0' !in c.previous
    && (c.previous != "" <==> Moves(c.status))
  }

  function Print(changes: seq<Change>): string {
    if changes == [] then "" else PrintOne(changes[0]) + Print(changes[1..])
  }

  function Record(c: Change): string {
    c.status + [' '] + c.path
  }

  function PrintOne(c: Change): string {
    Record(c) + ['\0'] + if Moves(c.status) then c.previous + ['\0'] else ""
  }

  // ---- letters

  predicate IsUnmerged(status: string) {
    'U' in status || status == "DD" || status == "AA"
  }

  /** `mapPorcelainStatus`: the first of the priorities among the letters. */
  function MapStatus(status: string): FileStatus {
    if status == "??" then Untracked
    else if IsUnmerged(status) then Unmerged
    else if 'D' in status then Deleted
    else if 'R' in status then Renamed
    else if 'C' in status then Copied
    else if 'A' in status then Added
    else if 'M' in status || 'T' in status then Modified
    else Untracked
  }

  const PRIORITY: seq<FileStatus> := [Unmerged, Untracked, Deleted, Renamed, Copied, Added, Modified]

  function Candidate(letter: char): set<FileStatus> {
    if letter == 'M' || letter == 'T' then {Modified}
    else if letter == 'A' then {Added}
    else if letter == 'D' then {Deleted}
    else if letter == 'R' then {Renamed}
    else if letter == 'C' then {Copied}
    else {}
  }

  method MapPorcelainStatus(status: string) returns (mapped: FileStatus)
    ensures mapped == MapStatus(status)
  {
    if status == "??" {
      return Untracked;
    }
    if IsUnmerged(status) {
      return Unmerged;
    }
    var candidates: set<FileStatus> := {};
    for i := 0 to |status|
      invariant Deleted in candidates <==> 'D' in status[..i]
      invariant Renamed in candidates <==> 'R' in status[..i]
      invariant Copied in candidates <==> 'C' in status[..i]
      invariant Added in candidates <==> 'A' in status[..i]
      invariant Modified in candidates <==> 'M' in status[..i] || 'T' in status[..i]
      invariant Unmerged !in candidates && Untracked !in candidates
    {
      assert status[..i + 1] == status[..i] + [status[i]];
      candidates := candidates + Candidate(status[i]);
    }
    assert status[..|status|] == status;
    for i := 0 to |PRIORITY|
      invariant forall k :: 0 <= k < i ==> PRIORITY[k] !in candidates
    {
      if PRIORITY[i] in candidates {
        FirstFound(candidates, i);
        return PRIORITY[i];
      }
    }
    NoneFound(candidates);
    mapped := Untracked;
  }

  function FirstOf(candidates: set<FileStatus>): FileStatus {
    if Deleted in candidates then Deleted
    else if Renamed in candidates then Renamed
    else if Copied in candidates then Copied
    else if Added in candidates then Added
    else if Modified in candidates then Modified
    else Untracked
  }

  lemma Priorities()
    ensures PRIORITY[0] == Unmerged && PRIORITY[1] == Untracked && PRIORITY[2] == Deleted && PRIORITY[3] == Renamed
    ensures PRIORITY[4] == Copied && PRIORITY[5] == Added && PRIORITY[6] == Modified
  {
  }

  lemma FirstFound(candidates: set<FileStatus>, i: nat)
    requires i < |PRIORITY| && PRIORITY[i] in candidates && Unmerged !in candidates && Untracked !in candidates
    requires forall k :: 0 <= k < i ==> PRIORITY[k] !in candidates
    ensures FirstOf(candidates) == PRIORITY[i]
  {
    Priorities();
  }

  lemma NoneFound(candidates: set<FileStatus>)
    requires forall k :: 0 <= k < |PRIORITY| ==> PRIORITY[k] !in candidates
    ensures FirstOf(candidates) == Untracked
  {
    Priorities();
  }

  // ---- the result

  datatype Status = Status(
    changedFiles: seq<string>, previousPaths: map<string, string>, statuses: map<string, FileStatus>, isDirty: bool, untracked: seq<string>)

  const CLEAN := Status([], map[], map[], false, [])

  /** A path and what is known of it; beyond the cap only that something changed. */
  function Listed(s: Status, status: string, path: string, previous: Option<string>): Status {
    if path != "" && |s.changedFiles| < MAX_CHANGED_FILES then
      Status(s.changedFiles + [path],
             if previous.Some? && previous.value != "" then s.previousPaths[path := previous.value] else s.previousPaths,
             s.statuses[path := MapStatus(status)], true,
             if status == "??" then s.untracked + [path] else s.untracked)
    else s.(isDirty := true)
  }

  function Head(record: string): string {
    if |record| <= 2 then record else record[..2]
  }

  function Rest(record: string): string {
    if |record| <= 3 then "" else record[3..]
  }

  function Tail<T>(xs: seq<T>, k: nat): seq<T> {
    if |xs| <= k then [] else xs[k..]
  }

  /** The loop of `parseBoundedGitStatus` from a record on. */
  function Read(records: seq<string>, s: Status): Status
    decreases |records|
  {
    if records == [] then s
    else if records[0] == "" then Read(records[1..], s)
    else
      var status, path := Head(records[0]), Rest(records[0]);
      if Moves(status) then Read(Tail(records, 2), Listed(s, status, path, if |records| > 1 then Some(records[1]) else None))
      else Read(records[1..], Listed(s, status, path, None))
  }

  /** `parseBoundedGitStatus`. */
  method ParseBoundedGitStatus(output: string) returns (s: Status)
    ensures s == Read(Split(output, '\0'), CLEAN)
  {
    var records := Split(output, '\0');
    s := CLEAN;
    var index := 0;
    while index < |records|
      invariant Read(Tail(records, index), s) == Read(records, CLEAN)
    {
      TailNext(records, index);
      var record := records[index];
      if record == "" {
        index := index + 1;
        continue;
      }
      var status, path := Head(record), Rest(record);
      var previous := if Moves(status) && index + 1 < |records| then Some(records[index + 1]) else None;
      s := Listed(s, status, path, previous);
      index := index + if Moves(status) then 2 else 1;
    }
  }

  lemma TailNext<T>(xs: seq<T>, k: nat)
    requires k < |xs|
    ensures Tail(xs, k)[0] == xs[k] && Tail(xs, k)[1..] == Tail(xs, k + 1) && Tail(Tail(xs, k), 2) == Tail(xs, k + 2)
    ensures |Tail(xs, k)| > 1 <==> k + 1 < |xs|
    ensures k + 1 < |xs| ==> Tail(xs, k)[1] == xs[k + 1]
  {
  }

  // ---- printing and reading

  function Records(changes: seq<Change>): seq<string> {
    if changes == [] then [] else RecordsOf(changes[0]) + Records(changes[1..])
  }

  function RecordsOf(c: Change): seq<string> {
    if Moves(c.status) then [Record(c), c.previous] else [Record(c)]
  }

  lemma RecordHasNoNul(c: Change)
    requires WellFormed(c)
    ensures '\0' !in Record(c)
  {
  }

  lemma SplitOne(c: Change, rest: string)
    requires WellFormed(c)
    ensures Split(PrintOne(c) + rest, '\0') == RecordsOf(c) + Split(rest, '\0')
  {
    RecordHasNoNul(c);
    if Moves(c.status) {
      assert PrintOne(c) + rest == Record(c) + ['\0'] + (c.previous + ['\0'] + rest);
      SplitAt(Record(c), '\0', c.previous + ['\0'] + rest);
      SplitAt(c.previous, '\0', rest);
    } else {
      assert PrintOne(c) + rest == Record(c) + ['\0'] + rest;
      SplitAt(Record(c), '\0', rest);
    }
  }

  lemma {:induction false} SplitPrint(changes: seq<Change>)
    requires forall c <- changes :: WellFormed(c)
    ensures Split(Print(changes), '\0') == Records(changes) + [""]
  {
    if changes == [] {
      assert Records(changes) + [""] == [""];
    } else {
      SplitPrint(changes[1..]);
      SplitOne(changes[0], Print(changes[1..]));
      assert RecordsOf(changes[0]) + (Records(changes[1..]) + [""]) == Records(changes) + [""];
    }
  }

  lemma RecordParts(c: Change)
    requires WellFormed(c)
    ensures Record(c) != "" && Head(Record(c)) == c.status && Rest(Record(c)) == c.path
  {
  }

  /** What the changes come to, in their order. */
  function Summary(changes: seq<Change>, s: Status): Status
    decreases |changes|
  {
    if changes == [] then s
    else Summary(changes[1..], Listed(s, changes[0].status, changes[0].path,
                                      if changes[0].previous == "" then None else Some(changes[0].previous)))
  }

  lemma ReadOne(c: Change, rest: seq<string>, s: Status)
    requires WellFormed(c)
    ensures Read(RecordsOf(c) + rest, s) == Read(rest, Listed(s, c.status, c.path, if c.previous == "" then None else Some(c.previous)))
  {
    RecordParts(c);
    var records := RecordsOf(c) + rest;
    if Moves(c.status) {
      assert Tail(records, 2) == rest && records[1] == c.previous;
    } else {
      assert records[1..] == rest;
    }
  }

  lemma {:induction false} ReadRecords(changes: seq<Change>, s: Status)
    requires forall c <- changes :: WellFormed(c)
    ensures Read(Records(changes) + [""], s) == Summary(changes, s)
    decreases |changes|
  {
    if changes == [] {
      assert Records(changes) + [""] == [""];
      assert [""][1..] == [];
    } else {
      var rest := Records(changes[1..]) + [""];
      assert Records(changes) + [""] == RecordsOf(changes[0]) + rest;
      ReadOne(changes[0], rest, s);
      ReadRecords(changes[1..], Listed(s, changes[0].status, changes[0].path,
                                       if changes[0].previous == "" then None else Some(changes[0].previous)));
    }
  }

  // ---- what the summary is

  function Paths(changes: seq<Change>): (paths: seq<string>)
    ensures |paths| == |changes| && forall i :: 0 <= i < |changes| ==> paths[i] == changes[i].path
  {
    if changes == [] then [] else [changes[0].path] + Paths(changes[1..])
  }

  /** The last change of a path, from the first `n`. */
  function LastOf(changes: seq<Change>, path: string): Option<Change> {
    if changes == [] then None
    else if changes[|changes| - 1].path == path then Some(changes[|changes| - 1])
    else LastOf(changes[..|changes| - 1], path)
  }

  function LastMove(changes: seq<Change>, path: string): Option<Change> {
    if changes == [] then None
    else if changes[|changes| - 1].path == path && changes[|changes| - 1].previous != "" then Some(changes[|changes| - 1])
    else LastMove(changes[..|changes| - 1], path)
  }

  function UntrackedOf(changes: seq<Change>): seq<string> {
    if changes == [] then []
    else UntrackedOf(changes[..|changes| - 1]) + if changes[|changes| - 1].status == "??" then [changes[|changes| - 1].path] else []
  }

  /** What the result says of a path: a later record of the same path wins. */
  predicate TellsOf(s: Status, changes: seq<Change>, path: string) {
    var last, move := LastOf(changes, path), LastMove(changes, path);
    && (path in s.statuses <==> last.Some?)
    && (last.Some? ==> s.statuses[path] == MapStatus(last.value.status))
    && (path in s.previousPaths <==> move.Some?)
    && (move.Some? ==> s.previousPaths[path] == move.value.previous)
  }

  ghost predicate Tells(s: Status, changes: seq<Change>) {
    s.changedFiles == Paths(changes) && s.untracked == UntrackedOf(changes) && forall path :: TellsOf(s, changes, path)
  }

  lemma LastSnoc(changes: seq<Change>, c: Change, path: string)
    ensures LastOf(changes + [c], path) == if c.path == path then Some(c) else LastOf(changes, path)
    ensures LastMove(changes + [c], path) == if c.path == path && c.previous != "" then Some(c) else LastMove(changes, path)
  {
    assert (changes + [c])[..|changes|] == changes;
  }

  lemma PathsSnoc(changes: seq<Change>, c: Change)
    ensures Paths(changes + [c]) == Paths(changes) + [c.path]
    ensures UntrackedOf(changes + [c]) == UntrackedOf(changes) + if c.status == "??" then [c.path] else []
  {
    assert (changes + [c])[..|changes|] == changes;
  }

  lemma TellsMore(s: Status, changes: seq<Change>, c: Change)
    requires Tells(s, changes) && WellFormed(c) && |changes| < MAX_CHANGED_FILES
    ensures Tells(Listed(s, c.status, c.path, if c.previous == "" then None else Some(c.previous)), changes + [c])
  {
    PathsSnoc(changes, c);
    assert UntrackedOf(changes) + [] == UntrackedOf(changes);
    var previous := if c.previous == "" then None else Some(c.previous);
    forall path ensures TellsOf(Listed(s, c.status, c.path, previous), changes + [c], path) {
      assert TellsOf(s, changes, path);
      LastSnoc(changes, c, path);
    }
  }

  lemma {:induction false} SummaryFull(changes: seq<Change>, s: Status)
    requires |s.changedFiles| >= MAX_CHANGED_FILES
    ensures Summary(changes, s) == s.(isDirty := s.isDirty || changes != [])
    decreases |changes|
  {
    if changes != [] {
      SummaryFull(changes[1..], s.(isDirty := true));
    }
  }

  function First(changes: seq<Change>): seq<Change> {
    if |changes| <= MAX_CHANGED_FILES then changes else changes[..MAX_CHANGED_FILES]
  }

  lemma {:induction false} SummaryTells(done: seq<Change>, rest: seq<Change>, s: Status)
    requires Tells(s, done) && |done| <= MAX_CHANGED_FILES && (s.isDirty <==> done != [])
    requires forall c <- rest :: WellFormed(c)
    ensures Tells(Summary(rest, s), First(done + rest)) && (Summary(rest, s).isDirty <==> done + rest != [])
    decreases |rest|
  {
    if rest == [] {
      assert done + rest == done;
    } else if |done| == MAX_CHANGED_FILES {
      SummaryFull(rest, s);
      assert First(done + rest) == done;
    } else {
      var c := rest[0];
      TellsMore(s, done, c);
      assert done + rest == (done + [c]) + rest[1..];
      SummaryTells(done + [c], rest[1..], Listed(s, c.status, c.path, if c.previous == "" then None else Some(c.previous)));
    }
  }

  /** Reading what was printed tells of its first 2000 changes, with their statuses and previous paths, however
      many renames and copies follow, and whether there was any. */
  lemma ReadsPrinted(changes: seq<Change>)
    requires forall c <- changes :: WellFormed(c)
    ensures var s := Read(Split(Print(changes), '\0'), CLEAN);
            Tells(s, First(changes)) && (s.isDirty <==> changes != [])
  {
    SplitPrint(changes);
    ReadRecords(changes, CLEAN);
    assert [] + changes == changes;
    SummaryTells([], changes, CLEAN);
  }

  // ---- quoted paths

  predicate IsControl(c: char) {
    c as int <= 0x1F || c as int == 0x7F
  }

  predicate MustEscape(c: char) {
    c == '"' || c == '\\' || IsControl(c)
  }

  predicate MustQuote(path: string) {
    exists c <- path :: MustEscape(c)
  }

  function Digit(n: nat): char
    requires n < 8
  {
    ('0' as int + n) as char
  }

  function Escaped(c: char): string {
    if c == '"' then "\\\""
    else if c == '\\' then "\\\\"
    else if IsControl(c) then ['\\', Digit(c as int / 64), Digit(c as int / 8 % 8), Digit(c as int % 8)]
    else [c]
  }

  function EscapedAll(path: string): string {
    if path == "" then "" else Escaped(path[0]) + EscapedAll(path[1..])
  }

  function Quoted(path: string): string {
    if MustQuote(path) then ['"'] + EscapedAll(path) + ['"'] else path
  }

  lemma EscapedSnoc(path: string, i: nat)
    requires i < |path|
    ensures EscapedAll(path[..i + 1]) == EscapedAll(path[..i]) + Escaped(path[i])
  {
    assert path[..i + 1] == path[..i] + [path[i]];
    EscapedConcat(path[..i], [path[i]]);
  }

  lemma {:induction false} EscapedConcat(a: string, b: string)
    ensures EscapedAll(a + b) == EscapedAll(a) + EscapedAll(b)
  {
    if a == "" {
      assert a + b == b;
    } else {
      assert (a + b)[0] == a[0] && (a + b)[1..] == a[1..] + b;
      EscapedConcat(a[1..], b);
      assert Escaped(a[0]) + (EscapedAll(a[1..]) + EscapedAll(b)) == Escaped(a[0]) + EscapedAll(a[1..]) + EscapedAll(b);
    }
  }

  /** `quoteSyntheticGitPath`. */
  method QuoteSyntheticGitPath(path: string) returns (quoted: string)
    ensures quoted == Quoted(path)
  {
    if !MustQuote(path) {
      return path;
    }
    quoted := ['"'];
    for i := 0 to |path|
      invariant quoted == ['"'] + EscapedAll(path[..i])
    {
      EscapedSnoc(path, i);
      quoted := quoted + Escaped(path[i]);
    }
    assert path[..|path|] == path;
    quoted := quoted + ['"'];
  }

  /** What `git` reads a quoted path as: a backslash takes the next character, or three octal digits. */
  function Unescaped(body: string): Option<string>
    decreases |body|
  {
    if body == "" then Some("")
    else if body[0] == '"' then None
    else if body[0] != '\\' then Prepend(body[0], Unescaped(body[1..]))
    else if |body| >= 2 && (body[1] == '"' || body[1] == '\\') then Prepend(body[1], Unescaped(body[2..]))
    else if |body| >= 4 && '0' <= body[1] <= '3' && IsOctal(body[2]) && IsOctal(body[3]) then
      Prepend((Octal(body[1]) * 64 + Octal(body[2]) * 8 + Octal(body[3])) as char, Unescaped(body[4..]))
    else None
  }

  function Prepend(c: char, rest: Option<string>): Option<string> {
    if rest.None? then None else Some([c] + rest.value)
  }

  predicate IsOctal(c: char) {
    '0' <= c <= '7'
  }

  function Octal(c: char): (n: int)
    requires IsOctal(c)
    ensures 0 <= n < 8
  {
    c as int - '0' as int
  }

  function Unquoted(text: string): Option<string> {
    if text == "" || text[0] != '"' then Some(text)
    else if |text| < 2 || text[|text| - 1] != '"' then None
    else Unescaped(text[1..|text| - 1])
  }

  lemma UnescapedOne(c: char, rest: string)
    ensures Unescaped(Escaped(c) + rest) == Prepend(c, Unescaped(rest))
  {
    var body := Escaped(c) + rest;
    if c == '"' || c == '\\' {
      assert body[2..] == rest;
    } else if IsControl(c) {
      assert body[4..] == rest;
    } else {
      assert body[1..] == rest;
    }
  }

  lemma {:induction false} UnescapedAll(path: string)
    ensures Unescaped(EscapedAll(path)) == Some(path)
  {
    if path != "" {
      UnescapedAll(path[1..]);
      UnescapedOne(path[0], EscapedAll(path[1..]));
      assert path == [path[0]] + path[1..];
    }
  }

  /** Every path is read back. */
  lemma UnquoteQuoted(path: string)
    ensures Unquoted(Quoted(path)) == Some(path)
  {
    if MustQuote(path) {
      UnescapedAll(path);
      assert Quoted(path)[1..|Quoted(path)| - 1] == EscapedAll(path);
    } else if path != "" {
      assert path[0] in path;
    }
  }

  /** No quoted path holds a control character, so it stays on its line. */
  lemma {:induction false} EscapedPlain(path: string)
    ensures forall c <- EscapedAll(path) :: !IsControl(c)
  {
    if path != "" {
      EscapedPlain(path[1..]);
      assert forall c <- Escaped(path[0]) :: !IsControl(c);
    }
  }

  lemma QuotedPlain(path: string)
    ensures forall c <- Quoted(path) :: !IsControl(c)
  {
    EscapedPlain(path);
  }
}
