/** The byte-bounded cache of session lists (apps/daemon/src/agents/sourceAgentSessionIndex.ts and
    apps/daemon/src/agents/sourceAgentSessionIndexIo.ts).

    `JSON.stringify` of a snapshot is a parameter; the map of the source is a sequence in its order. */
module SnapshotIndex {
  import opened Wrappers
  import opened Text
  import opened Utf8
  import Order
  import Sequences

  /** What is stored of a snapshot: `sessions` stands for the lists. */
  datatype Stored = Stored(cacheKey: string, cachedAt: string, sessions: nat)

  datatype Storage = Memory | Disk

  /** A cached snapshot, its size, and the number of the operation that brought it. */
  datatype Entry = Entry(stored: Stored, sizeBytes: nat, storage: Storage, operation: nat)

  const SNAPSHOT_LIMIT: nat := 128
  const STALE_RETENTION_MS := 30 * 24 * 60 * 60 * 1000

  /** `Date.parse` and the order of `localeCompare` on times; `stringify` is `JSON.stringify`. */
  datatype Host = Host(parse: string -> Option<int>, order: string -> int, stringify: Stored -> string, byteLimit: nat) {
    /** `measureSourceAgentSnapshotBytes`. */
    function Measure(stored: Stored): nat {
      |Bytes(stringify(stored))|
    }

    predicate Expired(cachedAt: string, now: int) {
      var time := parse(cachedAt);
      time.None? || time.value < now - STALE_RETENTION_MS
    }

    function Unexpired(entries: seq<Entry>, now: int): seq<Entry> {
      if entries == [] then []
      else (if Expired(entries[0].stored.cachedAt, now) then [] else [entries[0]]) + Unexpired(entries[1..], now)
    }

    function Oldest(entries: seq<Entry>): seq<Entry> {
      Order.Sort(entries, Age())
    }

    function Age(): Entry -> int {
      (e: Entry) => order(e.stored.cachedAt)
    }
  }

  // ---- the map

  ghost predicate Keyed(entries: seq<Entry>) {
    forall i, j :: 0 <= i < j < |entries| ==> entries[i].stored.cacheKey != entries[j].stored.cacheKey
  }

  /** `Map.set`: in place, or at the end. */
  function Put(entries: seq<Entry>, e: Entry): (r: seq<Entry>) {
    if entries == [] then [e]
    else if entries[0].stored.cacheKey == e.stored.cacheKey then [e] + entries[1..]
    else [entries[0]] + Put(entries[1..], e)
  }

  /** `Map.delete`. */
  function Without(entries: seq<Entry>, key: string): seq<Entry> {
    if entries == [] then []
    else if entries[0].stored.cacheKey == key then entries[1..]
    else [entries[0]] + Without(entries[1..], key)
  }

  function Total(entries: seq<Entry>): nat {
    if entries == [] then 0 else entries[0].sizeBytes + Total(entries[1..])
  }

  // ---- pruning

  /** `estimateSnapshotEnvelopeBytes`. */
  function Envelope(count: nat): nat {
    32 + count
  }

  predicate Fits(entries: seq<Entry>, byteLimit: nat) {
    |entries| <= SNAPSHOT_LIMIT && Total(entries) + Envelope(|entries|) <= byteLimit
  }

  /** The loop of `pruneSnapshots` over the oldest. */
  function DropOldest(entries: seq<Entry>, oldest: seq<Entry>, total: int, byteLimit: nat): seq<Entry>
    decreases |oldest|
  {
    if oldest == [] then entries
    else if |entries| <= SNAPSHOT_LIMIT && total + Envelope(|entries|) <= byteLimit then entries
    else DropOldest(Without(entries, oldest[0].stored.cacheKey), oldest[1..], total - oldest[0].sizeBytes, byteLimit)
  }

  function Pruned(host: Host, entries: seq<Entry>, now: int): seq<Entry> {
    var live := host.Unexpired(entries, now);
    DropOldest(live, host.Oldest(live), Total(live), host.byteLimit)
  }

  lemma {:induction false} WithoutMultiset(entries: seq<Entry>, e: Entry)
    requires Keyed(entries) && e in entries
    ensures multiset(Without(entries, e.stored.cacheKey)) == multiset(entries) - multiset{e}
  {
    assert entries == [entries[0]] + entries[1..];
    if entries[0].stored.cacheKey != e.stored.cacheKey {
      WithoutMultiset(entries[1..], e);
    } else {
      var i :| 0 <= i < |entries| && entries[i] == e;
      assert i == 0;
    }
  }

  lemma {:induction false} WithoutIn(entries: seq<Entry>, key: string, e: Entry)
    requires e in Without(entries, key)
    ensures e in entries
  {
    if entries[0].stored.cacheKey != key && e != entries[0] {
      WithoutIn(entries[1..], key, e);
    }
  }

  lemma {:induction false} WithoutKeyed(entries: seq<Entry>, key: string)
    requires Keyed(entries)
    ensures Keyed(Without(entries, key))
  {
    if entries != [] && entries[0].stored.cacheKey != key {
      WithoutKeyed(entries[1..], key);
      var rest := Without(entries[1..], key);
      forall i | 0 <= i < |rest| ensures rest[i].stored.cacheKey != entries[0].stored.cacheKey {
        WithoutIn(entries[1..], key, rest[i]);
        var k :| 0 <= k < |entries[1..]| && entries[1..][k] == rest[i];
        assert entries[k + 1] == rest[i];
      }
    }
  }

  lemma {:induction false} TotalWithout(entries: seq<Entry>, k: nat)
    requires k < |entries|
    ensures Total(entries) == Total(entries[..k] + entries[k + 1..]) + entries[k].sizeBytes
  {
    if k == 0 {
      assert entries[..0] + entries[1..] == entries[1..];
    } else {
      TotalWithout(entries[1..], k - 1);
      var rest := entries[..k] + entries[k + 1..];
      assert rest[1..] == entries[1..][..k - 1] + entries[1..][k..];
    }
  }

  lemma Removed(xs: seq<Entry>, k: nat)
    requires k < |xs|
    ensures multiset(xs[..k] + xs[k + 1..]) == multiset(xs) - multiset{xs[k]}
  {
    assert xs == xs[..k] + [xs[k]] + xs[k + 1..];
  }

  /** The sum does not depend on the order. */
  lemma {:induction false} TotalSame(a: seq<Entry>, b: seq<Entry>)
    requires multiset(a) == multiset(b)
    ensures Total(a) == Total(b) && |a| == |b|
    decreases |a|
  {
    assert |a| == |multiset(a)| == |multiset(b)| == |b|;
    if a != [] {
      assert a[0] in multiset(b);
      var k :| 0 <= k < |b| && b[k] == a[0];
      var rest := b[..k] + b[k + 1..];
      Removed(b, k);
      Sequences.TailMultiset(a);
      TotalSame(a[1..], rest);
      TotalWithout(b, k);
    }
  }

  lemma DropUnfolds(entries: seq<Entry>, oldest: seq<Entry>, byteLimit: nat)
    requires |entries| == |oldest| && oldest != [] && !Fits(oldest, byteLimit)
    ensures DropOldest(entries, oldest, Total(oldest), byteLimit)
            == DropOldest(Without(entries, oldest[0].stored.cacheKey), oldest[1..], Total(oldest[1..]), byteLimit)
  {
  }

  /** One round of the loop: the oldest goes, and what is left is again a reordering of the rest. */
  lemma DropStep(entries: seq<Entry>, oldest: seq<Entry>)
    requires Keyed(entries) && multiset(entries) == multiset(oldest) && oldest != []
    ensures var rest := Without(entries, oldest[0].stored.cacheKey); Keyed(rest) && multiset(rest) == multiset(oldest[1..])
  {
    assert oldest[0] in multiset(oldest) && oldest[0] in multiset(entries);
    WithoutMultiset(entries, oldest[0]);
    WithoutKeyed(entries, oldest[0].stored.cacheKey);
    Sequences.TailMultiset(oldest);
  }

  lemma DropStop(entries: seq<Entry>, oldest: seq<Entry>, byteLimit: nat)
    requires multiset(entries) == multiset(oldest) && (oldest == [] || Fits(oldest, byteLimit))
    ensures DropOldest(entries, oldest, Total(oldest), byteLimit) == entries && (entries == [] || Fits(entries, byteLimit))
  {
    TotalSame(entries, oldest);
  }

  /** What is dropped is a prefix of the oldest: as short as the limits allow. */
  lemma {:induction false} DropsShortestPrefix(entries: seq<Entry>, oldest: seq<Entry>, byteLimit: nat) returns (d: nat)
    requires Keyed(entries) && multiset(entries) == multiset(oldest)
    ensures d <= |oldest|
    ensures var kept := DropOldest(entries, oldest, Total(oldest), byteLimit);
            multiset(kept) == multiset(oldest[d..]) && Keyed(kept) && (kept == [] || Fits(kept, byteLimit))
    ensures forall k :: 0 <= k < d ==> !Fits(oldest[k..], byteLimit)
    decreases |oldest|
  {
    assert oldest[0..] == oldest;
    if oldest == [] || Fits(oldest, byteLimit) {
      d := 0;
      DropStop(entries, oldest, byteLimit);
    } else {
      TotalSame(entries, oldest);
      DropUnfolds(entries, oldest, byteLimit);
      DropStep(entries, oldest);
      d := DropsShortestPrefix(Without(entries, oldest[0].stored.cacheKey), oldest[1..], byteLimit);
      Shift(oldest, d, byteLimit);
      d := d + 1;
    }
  }

  lemma Shift(oldest: seq<Entry>, d: nat, byteLimit: nat)
    requires d < |oldest| && !Fits(oldest, byteLimit) && forall k :: 0 <= k < d ==> !Fits(oldest[1..][k..], byteLimit)
    ensures oldest[1..][d..] == oldest[d + 1..]
    ensures forall k :: 0 <= k < d + 1 ==> !Fits(oldest[k..], byteLimit)
  {
    forall k | 0 <= k < d + 1 ensures !Fits(oldest[k..], byteLimit) {
      if k == 0 {
        assert oldest[0..] == oldest;
      } else {
        assert oldest[1..][k - 1..] == oldest[k..];
      }
    }
  }

  lemma {:induction false} UnexpiredExactly(host: Host, entries: seq<Entry>, now: int, e: Entry)
    ensures e in host.Unexpired(entries, now) <==> e in entries && !host.Expired(e.stored.cachedAt, now)
  {
    if entries != [] {
      assert entries == [entries[0]] + entries[1..];
      UnexpiredExactly(host, entries[1..], now, e);
    }
  }

  lemma {:induction false} UnexpiredKeyed(host: Host, entries: seq<Entry>, now: int)
    requires Keyed(entries)
    ensures Keyed(host.Unexpired(entries, now))
  {
    if entries != [] {
      UnexpiredKeyed(host, entries[1..], now);
      var rest := host.Unexpired(entries[1..], now);
      forall i | 0 <= i < |rest| ensures rest[i].stored.cacheKey != entries[0].stored.cacheKey {
        UnexpiredExactly(host, entries[1..], now, rest[i]);
        var k :| 0 <= k < |entries[1..]| && entries[1..][k] == rest[i];
        assert entries[k + 1] == rest[i];
      }
    }
  }

  lemma UnexpiredHead(host: Host, entries: seq<Entry>, now: int)
    requires entries != []
    ensures var rest := host.Unexpired(entries[1..], now);
            host.Unexpired(entries, now) == if host.Expired(entries[0].stored.cachedAt, now) then rest else [entries[0]] + rest
  {
  }

  lemma {:induction false} UnexpiredSmaller(host: Host, entries: seq<Entry>, now: int)
    ensures |host.Unexpired(entries, now)| <= |entries| && Total(host.Unexpired(entries, now)) <= Total(entries)
  {
    if entries != [] {
      UnexpiredHead(host, entries, now);
      UnexpiredSmaller(host, entries[1..], now);
    }
  }

  lemma OldestKeeps(host: Host, entries: seq<Entry>)
    ensures multiset(host.Oldest(entries)) == multiset(entries) && Order.Ascending(host.Oldest(entries), host.Age())
    ensures Total(host.Oldest(entries)) == Total(entries)
  {
    Order.SortKeeps(entries, host.Age());
    TotalSame(host.Oldest(entries), entries);
  }

  /** `pruneSnapshots` keeps the newest unexpired snapshots: within both limits or none, and no fewer of them than
      the limits force. */
  lemma PruneKeepsNewest(host: Host, entries: seq<Entry>, now: int) returns (d: nat)
    requires Keyed(entries)
    ensures var kept, oldest := Pruned(host, entries, now), host.Oldest(host.Unexpired(entries, now));
            && Keyed(kept) && (kept == [] || Fits(kept, host.byteLimit))
            && d <= |oldest| && multiset(kept) == multiset(oldest[d..])
            && forall k :: 0 <= k < d ==> !Fits(oldest[k..], host.byteLimit)
  {
    var live := host.Unexpired(entries, now);
    UnexpiredKeyed(host, entries, now);
    OldestKeeps(host, live);
    d := DropsShortestPrefix(live, host.Oldest(live), host.byteLimit);
  }

  lemma AscendingCut(oldest: seq<Entry>, d: nat, kept: Entry, dropped: Entry, key: Entry -> int)
    requires Order.Ascending(oldest, key) && d <= |oldest|
    requires kept in oldest[d..] && dropped in oldest && dropped !in oldest[d..]
    ensures key(dropped) <= key(kept) && kept in oldest
  {
    assert oldest == oldest[..d] + oldest[d..];
    assert dropped in oldest[..d];
    var i :| 0 <= i < d && oldest[..d][i] == dropped;
    var j :| 0 <= j < |oldest[d..]| && oldest[d..][j] == kept;
    assert oldest[i] == dropped && oldest[d + j] == kept;
  }

  /** What is dropped although it has not expired is no newer than anything kept. */
  lemma PruneDropsOldest(host: Host, entries: seq<Entry>, now: int, kept: Entry, dropped: Entry)
    requires Keyed(entries) && kept in Pruned(host, entries, now)
    requires dropped in entries && !host.Expired(dropped.stored.cachedAt, now) && dropped !in Pruned(host, entries, now)
    ensures kept in entries && !host.Expired(kept.stored.cachedAt, now)
    ensures host.order(dropped.stored.cachedAt) <= host.order(kept.stored.cachedAt)
  {
    var live := host.Unexpired(entries, now);
    var oldest := host.Oldest(live);
    var d := PruneKeepsNewest(host, entries, now);
    OldestKeeps(host, live);
    UnexpiredExactly(host, entries, now, dropped);
    assert kept in multiset(oldest[d..]) && dropped !in multiset(oldest[d..]) && dropped in multiset(oldest);
    AscendingCut(oldest, d, kept, dropped, host.Age());
    assert kept in multiset(oldest);
    assert kept in multiset(live);
    UnexpiredExactly(host, entries, now, kept);
  }

  /** Nothing goes that has not expired while the limits are met. */
  lemma PruneKeepsAll(host: Host, entries: seq<Entry>, now: int)
    requires host.Unexpired(entries, now) == [] || Fits(host.Unexpired(entries, now), host.byteLimit)
    ensures Pruned(host, entries, now) == host.Unexpired(entries, now)
  {
    var live := host.Unexpired(entries, now);
    OldestKeeps(host, live);
    TotalSame(live, host.Oldest(live));
    DropStop(live, host.Oldest(live), host.byteLimit);
  }

  // ---- the file

  const FILE_START := "{\"version\":1,\"snapshots\":["
  const FILE_END := "]}\n"

  function Printed(host: Host, stored: seq<Stored>): (texts: seq<string>)
    ensures |texts| == |stored|
  {
    if stored == [] then [] else [host.stringify(stored[0])] + Printed(host, stored[1..])
  }

  /** What `persistNow` writes. */
  function FileText(host: Host, stored: seq<Stored>): string {
    FILE_START + (Join(Printed(host, stored), ',') + FILE_END)
  }

  function Contents(entries: seq<Entry>): (stored: seq<Stored>)
    ensures |stored| == |entries|
  {
    if entries == [] then [] else [entries[0].stored] + Contents(entries[1..])
  }

  predicate Measured(host: Host, entries: seq<Entry>) {
    forall i :: 0 <= i < |entries| ==> entries[i].sizeBytes == host.Measure(entries[i].stored)
  }

  predicate Ascii(text: string) {
    forall i :: 0 <= i < |text| ==> text[i] < '\U{80}'
  }

  lemma {:induction false} AsciiBytes(text: string)
    requires Ascii(text)
    ensures |Bytes(text)| == |text|
  {
    if text != "" {
      AsciiBytes(text[1..]);
    }
  }

  function Commas(count: nat): nat {
    if count == 0 then 0 else count - 1
  }

  lemma {:induction false} JoinedBytes(host: Host, entries: seq<Entry>)
    requires Measured(host, entries)
    ensures |Bytes(Join(Printed(host, Contents(entries)), ','))| == Total(entries) + Commas(|entries|)
  {
    if |entries| == 1 {
      assert Printed(host, Contents(entries)) == [host.stringify(entries[0].stored)];
    } else if |entries| > 1 {
      var rest := entries[1..];
      JoinedBytes(host, rest);
      var first, joined := host.stringify(entries[0].stored), Join(Printed(host, Contents(rest)), ',');
      assert Printed(host, Contents(entries))[1..] == Printed(host, Contents(rest));
      BytesConcat(first + [','], joined);
      BytesConcat(first, [',']);
      AsciiBytes([',']);
    }
  }

  lemma EnvelopePlain()
    ensures |FILE_START| == 26 && Ascii(FILE_START) && |FILE_END| == 3 && Ascii(FILE_END)
  {
  }

  lemma EnvelopedSize(host: Host, entries: seq<Entry>, start: string, end: string)
    requires Measured(host, entries) && Ascii(start) && Ascii(end)
    ensures var joined := Join(Printed(host, Contents(entries)), ',');
            |Bytes(start + (joined + end))| == |start| + |end| + Commas(|entries|) + Total(entries)
  {
    var joined := Join(Printed(host, Contents(entries)), ',');
    JoinedBytes(host, entries);
    AsciiBytes(start);
    AsciiBytes(end);
    BytesConcat(start, joined + end);
    BytesConcat(joined, end);
  }

  /** The envelope of the file is 29 bytes and a comma between snapshots. */
  lemma FileSize(host: Host, entries: seq<Entry>)
    requires Measured(host, entries)
    ensures |Bytes(FileText(host, Contents(entries)))| == 29 + Commas(|entries|) + Total(entries)
  {
    EnvelopePlain();
    EnvelopedSize(host, entries, FILE_START, FILE_END);
  }

  /** The file written after pruning is within the limit that loading checks, unless it is empty and the limit
      smaller than the bare envelope. */
  lemma FileFitsExactly(host: Host, entries: seq<Entry>)
    requires Measured(host, entries) && (entries == [] || Fits(entries, host.byteLimit))
    ensures |Bytes(FileText(host, Contents(entries)))| <= host.byteLimit <==> entries != [] || host.byteLimit >= 29
  {
    FileSize(host, entries);
  }

  // ---- loading

  /** What `loadFromDisk` takes from a file. */
  function Taken(host: Host, stored: seq<Stored>, now: int, operation: nat): seq<Entry> {
    if stored == [] then []
    else
      var size := host.Measure(stored[0]);
      (if host.Expired(stored[0].cachedAt, now) || size > host.byteLimit then [] else [Entry(stored[0], size, Disk, operation)])
      + Taken(host, stored[1..], now, operation)
  }

  /** A file is refused for its size, or for what it says; `None` stands for one that does not read as snapshots. */
  function Loaded(host: Host, size: nat, read: Option<seq<Stored>>, now: int, operation: nat): seq<Entry> {
    if size > host.byteLimit || read.None? then [] else Taken(host, read.value, now, operation)
  }

  function PutAll(entries: seq<Entry>, more: seq<Entry>): seq<Entry>
    decreases |more|
  {
    if more == [] then entries else PutAll(Put(entries, more[0]), more[1..])
  }

  function AsDisk(entries: seq<Entry>, operation: nat): (r: seq<Entry>)
    ensures |r| == |entries|
    ensures forall i :: 0 <= i < |entries| ==> r[i] == Entry(entries[i].stored, entries[i].sizeBytes, Disk, operation)
  {
    if entries == [] then [] else [Entry(entries[0].stored, entries[0].sizeBytes, Disk, operation)] + AsDisk(entries[1..], operation)
  }

  lemma TakenHead(host: Host, first: Stored, rest: seq<Stored>, now: int, operation: nat)
    ensures Taken(host, [first] + rest, now, operation)
            == (if host.Expired(first.cachedAt, now) || host.Measure(first) > host.byteLimit then []
                else [Entry(first, host.Measure(first), Disk, operation)])
               + Taken(host, rest, now, operation)
  {
    assert ([first] + rest)[1..] == rest;
  }

  lemma AsDiskHead(first: Entry, rest: seq<Entry>, operation: nat)
    ensures AsDisk([first] + rest, operation) == [Entry(first.stored, first.sizeBytes, Disk, operation)] + AsDisk(rest, operation)
  {
    assert ([first] + rest)[1..] == rest;
  }

  lemma {:induction false} TakesUnexpired(host: Host, entries: seq<Entry>, now: int, operation: nat)
    requires Measured(host, entries) && Total(entries) <= host.byteLimit
    ensures Taken(host, Contents(entries), now, operation) == AsDisk(host.Unexpired(entries, now), operation)
  {
    if entries != [] {
      TakesUnexpired(host, entries[1..], now, operation);
      UnexpiredHead(host, entries, now);
      TakenHead(host, entries[0].stored, Contents(entries[1..]), now, operation);
      AsDiskHead(entries[0], host.Unexpired(entries[1..], now), operation);
    }
  }

  lemma {:induction false} PutNew(entries: seq<Entry>, e: Entry)
    requires forall i :: 0 <= i < |entries| ==> entries[i].stored.cacheKey != e.stored.cacheKey
    ensures Put(entries, e) == entries + [e]
  {
    if entries != [] {
      PutNew(entries[1..], e);
    }
  }

  lemma {:induction false} PutAllNew(entries: seq<Entry>, more: seq<Entry>)
    requires Keyed(entries + more)
    ensures PutAll(entries, more) == entries + more
    decreases |more|
  {
    if more != [] {
      forall i | 0 <= i < |entries| ensures entries[i].stored.cacheKey != more[0].stored.cacheKey {
        assert (entries + more)[i] == entries[i] && (entries + more)[|entries|] == more[0];
      }
      PutNew(entries, more[0]);
      assert (entries + [more[0]]) + more[1..] == entries + more;
      PutAllNew(entries + [more[0]], more[1..]);
    } else {
      assert entries + [] == entries;
    }
  }

  lemma AsDiskSame(host: Host, entries: seq<Entry>, operation: nat)
    requires Keyed(entries)
    ensures Keyed(AsDisk(entries, operation))
  {
    var r := AsDisk(entries, operation);
    forall i, j | 0 <= i < j < |r| ensures r[i].stored.cacheKey != r[j].stored.cacheKey {
      assert entries[i].stored.cacheKey != entries[j].stored.cacheKey;
    }
  }

  lemma {:induction false} AsDiskTotal(entries: seq<Entry>, operation: nat)
    ensures Total(AsDisk(entries, operation)) == Total(entries)
  {
    if entries != [] {
      AsDiskTotal(entries[1..], operation);
      assert AsDisk(entries, operation)[1..] == AsDisk(entries[1..], operation);
    }
  }

  /** What was written is read back, but for what has expired: the limits do not cost a snapshot twice. */
  lemma LoadsBack(host: Host, entries: seq<Entry>, now: int, later: int, operation: nat)
    requires Keyed(entries) && Measured(host, entries) && entries != [] && Fits(entries, host.byteLimit)
    ensures var live := AsDisk(host.Unexpired(entries, now), operation);
            var file := FileText(host, Contents(entries));
            Pruned(host, PutAll([], Loaded(host, |Bytes(file)|, Some(Contents(entries)), now, operation)), later) == host.Unexpired(live, later)
  {
    var live := AsDisk(host.Unexpired(entries, now), operation);
    FileFitsExactly(host, entries);
    TakesUnexpired(host, entries, now, operation);
    UnexpiredKeyed(host, entries, now);
    UnexpiredSmaller(host, entries, now);
    AsDiskSame(host, host.Unexpired(entries, now), operation);
    AsDiskTotal(host.Unexpired(entries, now), operation);
    assert [] + live == live;
    PutAllNew([], live);
    UnexpiredSmaller(host, live, later);
    PruneKeepsAll(host, live, later);
  }
}
