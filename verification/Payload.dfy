/** Acceptance of an extracted Linux payload (packages/update/src/linuxApplyWorker.ts).

    The checker resolves every manifest entry, compares size and digest, and at the end compares the
    sorted recursive listing of the directory with the sorted declared paths.  `Accepted` says what
    that amounts to, without mentioning listing, resolving or sorting. */
module Payload {
  import opened Text
  import opened Wrappers

  const MANIFEST_NAME := "payload-manifest.json"
  const MAX_SAFE_INTEGER := 0x1f_ffff_ffff_ffff

  datatype Node = File(content: Content) | Dir(entries: seq<Entry>) | Special
  datatype Entry = Entry(name: string, node: Node)

  /** One element of the manifest's `files` array; anything that is not an object with a string path
      is `Malformed`. */
  datatype Declared = Malformed | Declared(path: string, size: int, sha256: string)

  datatype Manifest = Manifest(
    schemaVersion: int, packageId: string, platform: string, architecture: string, appVersion: string,
    files: seq<Declared>)

  datatype Target = Target(architecture: string, version: string)

  // ---- what the file system guarantees about a directory tree

  predicate ValidName(name: string) {
    name != "" && name != "." && name != ".." && '/' !in name
  }

  ghost predicate WellFormed(entries: seq<Entry>) {
    && (forall i :: 0 <= i < |entries| ==> ValidName(entries[i].name))
    && (forall i, j :: 0 <= i < j < |entries| ==> entries[i].name != entries[j].name)
    && (forall i :: 0 <= i < |entries| ==> WellFormedNode(entries[i].node))
  }

  ghost predicate WellFormedNode(node: Node) {
    match node
    case File(content) => |content| <= MAX_SAFE_INTEGER
    case Dir(entries) => WellFormed(entries)
    case Special => true
  }

  function Child(entries: seq<Entry>, name: string): Option<Node> {
    if entries == [] then None
    else if entries[0].name == name then Some(entries[0].node)
    else Child(entries[1..], name)
  }

  /** The node reached by walking the path components down from a node. */
  function At(node: Node, path: seq<string>): Option<Node>
    decreases path
  {
    if path == [] then Some(node)
    else if !node.Dir? then None
    else match Child(node.entries, path[0])
      case None => None
      case Some(child) => At(child, path[1..])
  }

  ghost predicate HoldsFile(root: seq<Entry>, path: seq<string>) {
    var node := At(Dir(root), path);
    node.Some? && node.value.File?
  }

  ghost predicate PayloadFile(root: seq<Entry>, path: seq<string>) {
    HoldsFile(root, path) && path != [MANIFEST_NAME]
  }

  // ---- the acceptance condition, independent of how it is computed

  predicate HeaderMatches(manifest: Manifest, target: Target) {
    && manifest.schemaVersion == 1
    && manifest.packageId == "io.deskcue.app"
    && manifest.platform == "linux"
    && manifest.architecture == target.architecture
    && manifest.appVersion == target.version
    && |manifest.files| > 0
  }

  ghost predicate DescribesFile(root: seq<Entry>, path: seq<string>, file: Declared, sha: Content -> string) {
    && PayloadFile(root, path)
    && file.Declared?
    && file.path == Join(path, '/')
    && file.size == |At(Dir(root), path).value.content|
    && file.sha256 == sha(At(Dir(root), path).value.content)
  }

  ghost predicate DescribesSomeFile(root: seq<Entry>, file: Declared, sha: Content -> string) {
    exists path :: DescribesFile(root, path, file, sha)
  }

  ghost predicate AllDescribe(root: seq<Entry>, files: seq<Declared>, sha: Content -> string) {
    forall i :: 0 <= i < |files| ==> DescribesSomeFile(root, files[i], sha)
  }

  ghost predicate AllDescribed(root: seq<Entry>, files: seq<Declared>, sha: Content -> string) {
    forall path :: PayloadFile(root, path) ==>
      exists i :: 0 <= i < |files| && DescribesFile(root, path, files[i], sha)
  }

  ghost predicate NoDuplicates(files: seq<Declared>) {
    forall i, j :: 0 <= i < j < |files| ==> files[i] != files[j]
  }

  /** The regular files below the root, without the manifest, are exactly the declared ones: same
      paths, same sizes, same digests, each declared once. */
  ghost predicate SameFileMap(root: seq<Entry>, files: seq<Declared>, sha: Content -> string) {
    AllDescribe(root, files, sha) && AllDescribed(root, files, sha) && NoDuplicates(files)
  }

  ghost predicate OnlyRegular(root: seq<Entry>) {
    forall path :: At(Dir(root), path) != Some(Special)
  }

  /** No payload file has a backslash anywhere in its path. */
  ghost predicate SlashPathsOnly(root: seq<Entry>) {
    forall path :: PayloadFile(root, path) ==> '\\' !in Join(path, '/')
  }

  ghost predicate Accepted(root: seq<Entry>, target: Target, sha: Content -> string, parse: Content -> Option<Manifest>) {
    && HoldsFile(root, [MANIFEST_NAME])
    && var parsed := parse(At(Dir(root), [MANIFEST_NAME]).value.content);
    && parsed.Some?
    && HeaderMatches(parsed.value, target)
    && OnlyRegular(root)
    && SlashPathsOnly(root)
    && SameFileMap(root, parsed.value.files, sha)
  }

  // ---- the checker

  predicate ValidManifestPath(path: string) {
    path != "" && '\\' !in path && path[0] != '/' && ".." !in Split(path, '/')
  }

  function DropEmpty(pieces: seq<string>): seq<string> {
    if pieces == [] then []
    else if pieces[0] == "" || pieces[0] == "." then DropEmpty(pieces[1..])
    else [pieces[0]] + DropEmpty(pieces[1..])
  }

  /** `resolve(payloadRoot, ...path.split("/"))`, relative to the payload root; without a `..`
      component the result cannot leave the root. */
  function Resolve(path: string): seq<string> {
    DropEmpty(Split(path, '/'))
  }

  predicate IsDigest(value: string) {
    |value| == 64 && forall i :: 0 <= i < 64 ==> '0' <= value[i] <= '9' || 'a' <= value[i] <= 'f'
  }

  predicate EntryChecks(root: seq<Entry>, file: Declared, sha: Content -> string) {
    && file.Declared?
    && ValidManifestPath(file.path)
    && 0 <= file.size <= MAX_SAFE_INTEGER
    && IsDigest(file.sha256)
    && var node := At(Dir(root), Resolve(file.path));
    && node.Some? && node.value.File?
    && |node.value.content| == file.size
    && sha(node.value.content) == file.sha256
  }

  /** `listPayloadFiles`: every regular file below, as a slash path; `None` when a link or special
      file is met. */
  function ListFiles(entries: seq<Entry>, prefix: string): Option<seq<string>> {
    if entries == [] then Some([])
    else
      var path := if prefix == "" then entries[0].name else prefix + "/" + entries[0].name;
      var first := match entries[0].node
        case File(_) => Some([path])
        case Dir(inner) => ListFiles(inner, path)
        case Special => None;
      var rest := ListFiles(entries[1..], prefix);
      if first.Some? && rest.Some? then Some(first.value + rest.value) else None
  }

  function Without(paths: seq<string>, name: string): (r: seq<string>)
    ensures forall p :: p in r <==> p in paths && p != name
  {
    if paths == [] then []
    else if paths[0] == name then Without(paths[1..], name)
    else [paths[0]] + Without(paths[1..], name)
  }

  /** `verifyExtractedLinuxPayload`: true when the payload is accepted, false when it throws. */
  method Verify(root: seq<Entry>, target: Target, sha: Content -> string, parse: Content -> Option<Manifest>)
    returns (ok: bool)
    requires WellFormed(root)
    requires forall content :: IsDigest(sha(content))
    ensures ok <==> Accepted(root, target, sha, parse)
  {
    var manifestNode := At(Dir(root), [MANIFEST_NAME]);
    if manifestNode.None? || !manifestNode.value.File? {
      return false;
    }
    var parsed := parse(manifestNode.value.content);
    if parsed.None? || !HeaderMatches(parsed.value, target) {
      return false;
    }
    var files := parsed.value.files;
    var seen: seq<string> := [];
    for i := 0 to |files|
      invariant |seen| == i
      invariant forall j :: 0 <= j < i ==> EntryChecks(root, files[j], sha) && seen[j] == files[j].path
      invariant forall j, k :: 0 <= j < k < i ==> seen[j] != seen[k]
    {
      if !EntryChecks(root, files[i], sha) {
        if SameFileMap(root, files, sha) && SlashPathsOnly(root) {
          DescribedFileChecks(root, files[i], sha);
        }
        return false;
      }
      if files[i].path in seen {
        if SameFileMap(root, files, sha) {
          DescribedPathsDiffer(root, files, sha);
        }
        return false;
      }
      seen := seen + [files[i].path];
    }
    var listed := ListFiles(root, "");
    ListingIsExact(root);
    if listed.None? {
      return false;
    }
    var actual := Sorted(Without(listed.value, MANIFEST_NAME));
    var declared := Sorted(seen);
    ok := actual == declared;
    SortedEqual(Without(listed.value, MANIFEST_NAME), seen);
    ListingDecides(root, files, seen, listed.value, sha);
  }

  // ---- the recursive listing is exact

  lemma {:induction false} ChildIs(entries: seq<Entry>, i: nat)
    requires WellFormed(entries) && i < |entries|
    ensures Child(entries, entries[i].name) == Some(entries[i].node)
  {
    if i > 0 {
      ChildIs(entries[1..], i - 1);
    }
  }

  lemma {:induction false} ChildFound(entries: seq<Entry>, name: string) returns (i: nat)
    requires Child(entries, name).Some?
    ensures i < |entries| && entries[i].name == name && Child(entries, name) == Some(entries[i].node)
  {
    if entries[0].name == name {
      i := 0;
    } else {
      i := ChildFound(entries[1..], name);
      i := i + 1;
    }
  }

  lemma {:induction false} PathNamesValid(node: Node, path: seq<string>)
    requires WellFormedNode(node) && At(node, path).Some?
    ensures forall k :: 0 <= k < |path| ==> ValidName(path[k])
    ensures WellFormedNode(At(node, path).value)
    decreases path
  {
    if path != [] {
      var i := ChildFound(node.entries, path[0]);
      PathNamesValid(node.entries[i].node, path[1..]);
    }
  }

  lemma {:induction false} JoinPrefix(name: string, rest: seq<string>)
    requires rest != []
    ensures Join([name] + rest, '/') == name + "/" + Join(rest, '/')
  {
    assert ([name] + rest)[1..] == rest;
  }

  /** The string built for a file from the prefix of its directory. */
  function PathUnder(prefix: string, path: seq<string>): string {
    if prefix == "" then Join(path, '/') else prefix + "/" + Join(path, '/')
  }

  lemma PathUnderChild(prefix: string, name: string, path: seq<string>)
    requires ValidName(name) && path != []
    ensures var inner := if prefix == "" then name else prefix + "/" + name;
            PathUnder(inner, path) == PathUnder(prefix, [name] + path)
  {
    JoinPrefix(name, path);
    if prefix != "" {
      assert prefix + "/" + name + "/" + Join(path, '/') == prefix + "/" + (name + "/" + Join(path, '/'));
    }
  }

  /** The listing fails exactly on a special file, and otherwise holds exactly the regular files. */
  lemma {:induction false} ListingSound(entries: seq<Entry>, prefix: string, p: string) returns (path: seq<string>)
    requires WellFormed(entries)
    requires ListFiles(entries, prefix).Some? && p in ListFiles(entries, prefix).value
    ensures path != [] && p == PathUnder(prefix, path) && HoldsFile(entries, path)
  {
    var name := entries[0].name;
    var here := if prefix == "" then name else prefix + "/" + name;
    var rest := entries[1..];
    if entries[0].node.File? && p == here {
      path := [name];
    } else if entries[0].node.Dir? && p in ListFiles(entries[0].node.entries, here).value {
      var inner := ListingSound(entries[0].node.entries, here, p);
      path := [name] + inner;
      PathUnderChild(prefix, name, inner);
      assert path[1..] == inner;
    } else {
      assert p in ListFiles(rest, prefix).value;
      path := ListingSound(rest, prefix, p);
      var i := ChildFound(rest, path[0]);
      ChildIs(entries, i + 1);
    }
  }

  lemma {:induction false} ListingComplete(entries: seq<Entry>, prefix: string, path: seq<string>, i: nat)
    requires WellFormed(entries) && i < |entries|
    requires path != [] && path[0] == entries[i].name && At(entries[i].node, path[1..]).Some?
    requires !At(entries[i].node, path[1..]).value.Dir?
    ensures At(entries[i].node, path[1..]) == Some(Special) ==> ListFiles(entries, prefix).None?
    ensures At(entries[i].node, path[1..]).value.File? && ListFiles(entries, prefix).Some? ==>
              PathUnder(prefix, path) in ListFiles(entries, prefix).value
    decreases entries
  {
    if i > 0 {
      ListingComplete(entries[1..], prefix, path, i - 1);
    } else if entries[0].node.Dir? {
      var name := entries[0].name;
      var here := if prefix == "" then name else prefix + "/" + name;
      var rest := path[1..];
      var inner := entries[0].node.entries;
      var j := ChildFound(inner, rest[0]);
      ListingComplete(inner, here, rest, j);
      PathUnderChild(prefix, name, rest);
      assert [name] + rest == path;
    } else {
      assert path == [entries[0].name];
    }
  }

  lemma {:induction false} ListingTotal(entries: seq<Entry>, prefix: string) returns (path: seq<string>)
    requires WellFormed(entries) && ListFiles(entries, prefix).None?
    ensures At(Dir(entries), path) == Some(Special)
  {
    var name := entries[0].name;
    var here := if prefix == "" then name else prefix + "/" + name;
    if entries[0].node.Special? {
      path := [name];
    } else if entries[0].node.Dir? && ListFiles(entries[0].node.entries, here).None? {
      var inner := ListingTotal(entries[0].node.entries, here);
      path := [name] + inner;
      assert path[1..] == inner;
    } else {
      path := ListingTotal(entries[1..], prefix);
      var i := ChildFound(entries[1..], path[0]);
      ChildIs(entries, i + 1);
    }
  }

  lemma ListingIsExact(root: seq<Entry>)
    requires WellFormed(root)
    ensures ListFiles(root, "").Some? <==> OnlyRegular(root)
    ensures ListFiles(root, "").Some? ==>
              forall p :: p in ListFiles(root, "").value <==>
                          exists path :: HoldsFile(root, path) && p == Join(path, '/')
    ensures ListFiles(root, "").Some? ==> forall path :: HoldsFile(root, path) ==> Join(path, '/') in ListFiles(root, "").value
  {
    if ListFiles(root, "").None? {
      var path := ListingTotal(root, "");
    } else {
      forall path | At(Dir(root), path).Some? && !At(Dir(root), path).value.Dir?
        ensures At(Dir(root), path) != Some(Special)
        ensures HoldsFile(root, path) ==> Join(path, '/') in ListFiles(root, "").value
      {
        var i := ChildFound(root, path[0]);
        ListingComplete(root, "", path, i);
      }
      forall p | p in ListFiles(root, "").value
        ensures exists path :: HoldsFile(root, path) && p == Join(path, '/')
      {
        var path := ListingSound(root, "", p);
      }
    }
  }

  // ---- slash paths and component paths determine each other

  lemma {:induction false} DropEmptyKeeps(path: seq<string>)
    requires forall k :: 0 <= k < |path| ==> ValidName(path[k])
    ensures DropEmpty(path) == path
  {
    if path != [] {
      DropEmptyKeeps(path[1..]);
    }
  }

  lemma FilePath(root: seq<Entry>, path: seq<string>)
    requires WellFormed(root) && HoldsFile(root, path)
    ensures path != [] && Split(Join(path, '/'), '/') == path && Resolve(Join(path, '/')) == path
    ensures |At(Dir(root), path).value.content| <= MAX_SAFE_INTEGER
    ensures '\\' !in Join(path, '/') ==> ValidManifestPath(Join(path, '/'))
  {
    PathNamesValid(Dir(root), path);
    SplitJoin(path, '/');
    DropEmptyKeeps(path);
    var text := Join(path, '/');
    if |path| > 1 {
      assert text == path[0] + "/" + Join(path[1..], '/');
    }
    assert text[0] == path[0][0];
  }

  lemma DescribedFileChecks(root: seq<Entry>, file: Declared, sha: Content -> string)
    requires WellFormed(root) && SlashPathsOnly(root)
    requires forall content :: IsDigest(sha(content))
    requires DescribesSomeFile(root, file, sha)
    ensures EntryChecks(root, file, sha)
  {
    var path :| DescribesFile(root, path, file, sha);
    FilePath(root, path);
  }

  lemma DescribedPathsDiffer(root: seq<Entry>, files: seq<Declared>, sha: Content -> string)
    requires WellFormed(root) && AllDescribe(root, files, sha) && NoDuplicates(files)
    ensures forall i, j :: 0 <= i < j < |files| ==> files[i].Declared? && files[j].Declared? && files[i].path != files[j].path
  {
    forall i, j | 0 <= i < j < |files|
      ensures files[i].Declared? && files[j].Declared? && files[i].path != files[j].path
    {
      var p :| DescribesFile(root, p, files[i], sha);
      var q :| DescribesFile(root, q, files[j], sha);
      PathOfDescription(root, p, files[i], sha);
      PathOfDescription(root, q, files[j], sha);
    }
  }

  lemma PathOfDescription(root: seq<Entry>, path: seq<string>, file: Declared, sha: Content -> string)
    requires WellFormed(root) && DescribesFile(root, path, file, sha)
    ensures path == Split(file.path, '/')
  {
    FilePath(root, path);
  }

  lemma {:induction false} DistinctAsMultisets(a: seq<string>, b: seq<string>)
    requires forall i, j :: 0 <= i < j < |a| ==> a[i] != a[j]
    requires forall i, j :: 0 <= i < j < |b| ==> b[i] != b[j]
    ensures multiset(a) == multiset(b) <==> (forall x :: x in a <==> x in b)
  {
    DistinctCounts(a);
    DistinctCounts(b);
    if multiset(a) == multiset(b) {
      forall x ensures x in a <==> x in b {
        assert x in a <==> x in multiset(a);
        assert x in b <==> x in multiset(b);
      }
    }
  }

  lemma {:induction false} DistinctCounts(a: seq<string>)
    requires forall i, j :: 0 <= i < j < |a| ==> a[i] != a[j]
    ensures forall x :: multiset(a)[x] == if x in a then 1 else 0
  {
    if a != [] {
      assert a == [a[0]] + a[1..];
      DistinctCounts(a[1..]);
    }
  }

  ghost predicate NoRepeats(paths: seq<string>) {
    forall i, j :: 0 <= i < j < |paths| ==> paths[i] != paths[j]
  }

  lemma NoRepeatsConcat(a: seq<string>, b: seq<string>)
    requires NoRepeats(a) && NoRepeats(b)
    requires forall p :: p in a ==> p !in b
    ensures NoRepeats(a + b)
  {
    forall i, j | 0 <= i < j < |a + b| ensures (a + b)[i] != (a + b)[j] {
      if i < |a| <= j {
        assert (a + b)[i] in a && (a + b)[j] in b;
      }
    }
  }

  lemma {:induction false} WithoutNoRepeats(paths: seq<string>, name: string)
    requires NoRepeats(paths)
    ensures NoRepeats(Without(paths, name))
  {
    if paths != [] {
      var rest := Without(paths[1..], name);
      assert NoRepeats(paths[1..]);
      WithoutNoRepeats(paths[1..], name);
      NoRepeatsConcat([paths[0]], rest);
    }
  }

  lemma PathUnderInjective(prefix: string, p: seq<string>, q: seq<string>)
    requires p != [] && q != [] && PathUnder(prefix, p) == PathUnder(prefix, q)
    requires forall k :: 0 <= k < |p| ==> ValidName(p[k])
    requires forall k :: 0 <= k < |q| ==> ValidName(q[k])
    ensures p == q
  {
    if prefix != "" {
      var n := |prefix| + 1;
      assert PathUnder(prefix, p)[n..] == Join(p, '/');
      assert PathUnder(prefix, q)[n..] == Join(q, '/');
    }
    SplitJoin(p, '/');
    SplitJoin(q, '/');
  }

  lemma {:induction false} ListingNoRepeats(entries: seq<Entry>, prefix: string)
    requires WellFormed(entries) && ListFiles(entries, prefix).Some?
    ensures NoRepeats(ListFiles(entries, prefix).value)
  {
    if entries != [] {
      var name := entries[0].name;
      var here := if prefix == "" then name else prefix + "/" + name;
      var first := if entries[0].node.File? then [here] else ListFiles(entries[0].node.entries, here).value;
      var rest := ListFiles(entries[1..], prefix).value;
      ListingNoRepeats(entries[1..], prefix);
      if entries[0].node.Dir? {
        ListingNoRepeats(entries[0].node.entries, here);
      }
      forall p | p in first ensures p !in rest {
        ListingOfOne(entries[0], prefix);
        if p in rest {
          FirstNotInRest(entries, prefix, first, rest, p);
        }
      }
      NoRepeatsConcat(first, rest);
    }
  }

  lemma ListingOfOne(entry: Entry, prefix: string)
    ensures var here := if prefix == "" then entry.name else prefix + "/" + entry.name;
            ListFiles([entry], prefix) ==
            (match entry.node case File(_) => Some([here]) case Dir(inner) => ListFiles(inner, here) case Special => None)
  {
    assert [entry][1..] == [];
    assert forall first: seq<string> :: first + [] == first;
  }

  lemma FirstNotInRest(entries: seq<Entry>, prefix: string, first: seq<string>, rest: seq<string>, p: string)
    requires entries != [] && WellFormed(entries)
    requires ListFiles([entries[0]], prefix) == Some(first) && ListFiles(entries[1..], prefix) == Some(rest)
    requires p in first
    ensures p !in rest
  {
    if p in rest {
      var a := ListingSound([entries[0]], prefix, p);
      var b := ListingSound(entries[1..], prefix, p);
      PathNamesValid(Dir([entries[0]]), a);
      PathNamesValid(Dir(entries[1..]), b);
      var j := ChildFound([entries[0]], a[0]);
      var i := ChildFound(entries[1..], b[0]);
      PathUnderInjective(prefix, a, b);
    }
  }

  /** Once every entry has passed its own checks, comparing the two path lists decides acceptance. */
  lemma ListingDecides(root: seq<Entry>, files: seq<Declared>, seen: seq<string>, listed: seq<string>, sha: Content -> string)
    requires WellFormed(root) && ListFiles(root, "") == Some(listed)
    requires |seen| == |files| && NoRepeats(seen)
    requires forall i :: 0 <= i < |files| ==> EntryChecks(root, files[i], sha) && seen[i] == files[i].path
    ensures multiset(Without(listed, MANIFEST_NAME)) == multiset(seen) <==>
              SlashPathsOnly(root) && SameFileMap(root, files, sha)
  {
    var actual := Without(listed, MANIFEST_NAME);
    ListingIsExact(root);
    ListingNoRepeats(root, "");
    WithoutNoRepeats(listed, MANIFEST_NAME);
    DistinctAsMultisets(actual, seen);
    if forall x :: x in actual <==> x in seen {
      ListsAgree(root, files, seen, actual, sha);
    }
    if SlashPathsOnly(root) && SameFileMap(root, files, sha) {
      MapsAgree(root, files, seen, listed, sha);
    }
  }

  lemma ManifestPathIsName(root: seq<Entry>, path: seq<string>, name: string)
    requires WellFormed(root) && HoldsFile(root, path) && ValidName(name)
    ensures Join(path, '/') == name <==> path == [name]
  {
    FilePath(root, path);
    if Join(path, '/') == name {
      SplitWhole(name, '/');
    }
  }

  lemma ListsAgree(root: seq<Entry>, files: seq<Declared>, seen: seq<string>, actual: seq<string>, sha: Content -> string)
    requires WellFormed(root) && ListFiles(root, "").Some?
    requires actual == Without(ListFiles(root, "").value, MANIFEST_NAME)
    requires |seen| == |files| && NoRepeats(seen)
    requires forall i :: 0 <= i < |files| ==> EntryChecks(root, files[i], sha) && seen[i] == files[i].path
    requires forall x :: x in actual <==> x in seen
    ensures SlashPathsOnly(root) && SameFileMap(root, files, sha)
  {
    ListingIsExact(root);
    assert ValidName(MANIFEST_NAME);
    forall i | 0 <= i < |files| ensures DescribesSomeFile(root, files[i], sha) {
      assert seen[i] in actual;
      var path :| HoldsFile(root, path) && seen[i] == Join(path, '/');
      ListedEntryDescribes(root, path, files[i], sha);
    }
    forall path | PayloadFile(root, path)
      ensures '\\' !in Join(path, '/')
      ensures exists i :: 0 <= i < |files| && DescribesFile(root, path, files[i], sha)
    {
      ManifestPathIsName(root, path, MANIFEST_NAME);
      assert Join(path, '/') in actual;
      var i :| 0 <= i < |seen| && seen[i] == Join(path, '/');
      ListedEntryDescribes(root, path, files[i], sha);
    }
    forall i, j | 0 <= i < j < |files| ensures files[i] != files[j] {
      assert seen[i] != seen[j];
    }
  }

  lemma ListedEntryDescribes(root: seq<Entry>, path: seq<string>, file: Declared, sha: Content -> string)
    requires WellFormed(root) && HoldsFile(root, path) && EntryChecks(root, file, sha)
    requires file.path == Join(path, '/') && file.path != MANIFEST_NAME
    ensures DescribesFile(root, path, file, sha)
  {
    FilePath(root, path);
  }

  lemma MapsAgree(root: seq<Entry>, files: seq<Declared>, seen: seq<string>, listed: seq<string>, sha: Content -> string)
    requires WellFormed(root) && ListFiles(root, "") == Some(listed)
    requires |seen| == |files|
    requires forall i :: 0 <= i < |files| ==> files[i].Declared? && seen[i] == files[i].path
    requires SameFileMap(root, files, sha)
    ensures forall x :: x in Without(listed, MANIFEST_NAME) <==> x in seen
  {
    forall x | x in Without(listed, MANIFEST_NAME) ensures x in seen {
      ListedIsDeclared(root, files, seen, listed, x, sha);
    }
    forall x | x in seen ensures x in Without(listed, MANIFEST_NAME) {
      DeclaredIsListed(root, files, seen, listed, x, sha);
    }
  }

  lemma ListedIsDeclared(root: seq<Entry>, files: seq<Declared>, seen: seq<string>, listed: seq<string>, x: string, sha: Content -> string)
    requires WellFormed(root) && ListFiles(root, "") == Some(listed) && |seen| == |files|
    requires forall i :: 0 <= i < |files| ==> files[i].Declared? && seen[i] == files[i].path
    requires AllDescribed(root, files, sha) && x in listed && x != MANIFEST_NAME
    ensures x in seen
  {
    ListingIsExact(root);
    var path :| HoldsFile(root, path) && x == Join(path, '/');
    assert PayloadFile(root, path);
    var i :| 0 <= i < |files| && DescribesFile(root, path, files[i], sha);
    assert seen[i] == x;
  }

  lemma DeclaredIsListed(root: seq<Entry>, files: seq<Declared>, seen: seq<string>, listed: seq<string>, x: string, sha: Content -> string)
    requires WellFormed(root) && ListFiles(root, "") == Some(listed) && |seen| == |files|
    requires forall i :: 0 <= i < |files| ==> files[i].Declared? && seen[i] == files[i].path
    requires AllDescribe(root, files, sha) && x in seen
    ensures x in listed && x != MANIFEST_NAME
  {
    ListingIsExact(root);
    var i :| 0 <= i < |seen| && seen[i] == x;
    var path :| DescribesFile(root, path, files[i], sha);
    assert ValidName(MANIFEST_NAME);
    ManifestPathIsName(root, path, MANIFEST_NAME);
  }

  /** The equality of the two file maps alone is not enough: a payload whose only file is named
      with a backslash is refused although its manifest describes it exactly. */
  lemma BackslashNameRefused(content: Content, manifest: Content, sha: Content -> string, parse: Content -> Option<Manifest>)
    requires parse(manifest) == Some(Manifest(1, "io.deskcue.app", "linux", "x64", "2.0.0",
                                              [Declared("a\\b", |content|, sha(content))]))
    ensures var root := [Entry(MANIFEST_NAME, File(manifest)), Entry("a\\b", File(content))];
            && SameFileMap(root, parse(manifest).value.files, sha)
            && !Accepted(root, Target("x64", "2.0.0"), sha, parse)
  {
    var root := [Entry(MANIFEST_NAME, File(manifest)), Entry("a\\b", File(content))];
    var files := parse(manifest).value.files;
    var path := ["a\\b"];
    assert root[1..][0].name == "a\\b";
    assert Child(root, "a\\b") == Child(root[1..], "a\\b") == Some(File(content));
    assert At(Dir(root), path) == At(File(content), path[1..]) == Some(File(content));
    assert PayloadFile(root, path);
    assert DescribesFile(root, path, files[0], sha);
    forall p | PayloadFile(root, p) ensures p == path {
      var i := ChildFound(root, p[0]);
      assert At(root[i].node, p[1..]).Some?;
      assert p == [p[0]] + p[1..];
    }
    assert '\\' in Join(path, '/') by {
      assert Join(path, '/')[1] == '\\';
    }
  }
}
