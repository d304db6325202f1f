/** The persisted update state machine (packages/update/src/manager.ts, with the stage directory of
    apply.ts, the download of download.ts and the atomic state file of stateStore.ts).

    `trace` records the state file and the stage directory after every write, removal and download step;
    a crash leaves the disk as one element of it.  Every external step may fail (`*`), and `faulted` says that one
    has: what an operation does without that is stated exactly. */
module UpdateManager {
  import opened Wrappers
  import opened Sequences
  import Payload
  import Versions

  datatype Phase = Applying | Available | Checking | Downloading | Failed | Idle | Staged

  datatype State = State(
    architecture: string, artifact: Option<Versions.Artifact>, channel: string, currentVersion: string,
    error: Option<string>, phase: Phase, progressBytes: nat, stagedPath: Option<string>,
    targetVersion: Option<string>, totalBytes: nat, updatedAt: int)

  /** What stays the same from one installed version to the next. */
  datatype Machine = Machine(
    platform: string,
    stageDirectory: string,
    hash: Content -> string,
    /** the file names cleanup may remove (DURABLE_INSTALLER_PATTERN) */
    durableName: string -> bool)

  datatype Build = Build(
    machine: Machine, architecture: string, channel: string, currentVersion: string,
    maxArtifactBytes: nat, allowedUrl: string -> bool)

  datatype Manifest = Manifest(channel: string, version: string, artifacts: seq<Versions.Artifact>)

  /** The answer of the network to a manifest request. */
  datatype Response = Received(manifest: Manifest) | Aborted | Broken(code: string)

  /** What the network sends of an artifact: the announced length, and the chunks. */
  datatype Transmission = Transmission(cancelled: bool, contentLength: Option<nat>, chunks: seq<Content>)

  datatype CheckResult = UpdateAvailable | UpToDate | CheckCancelled | CheckError
  datatype DownloadResult = DownloadStaged | DownloadCancelled | DownloadError
  datatype Verdict = Verified | Missing | Changed | Unreadable
  datatype Reuse = Reused | NotReused | ReuseError
  datatype Transfer = Transferred | TransferCancelled | TransferFailed
  datatype Handoff = Handoff(artifact: Versions.Artifact, installerPath: string, targetVersion: string)

  datatype Shot = Shot(stored: Option<State>, files: map<string, Content>)

  // ---- paths

  function InstallerName(version: string, platform: string, architecture: string): string {
    if platform == "win32" then "DeskCueSetup-" + version + "-win-" + architecture + ".exe"
    else "deskcue-" + version + "-linux-" + architecture + ".tar.gz"
  }

  function StagePath(machine: Machine, version: string, architecture: string): string {
    machine.stageDirectory + "/" + InstallerName(version, machine.platform, architecture)
  }

  /** A regular file directly in the stage directory with a durable installer name. */
  predicate Removable(machine: Machine, path: string) {
    var prefix := machine.stageDirectory + "/";
    prefix < path && '/' !in path[|prefix|..] && machine.durableName(path[|prefix|..])
  }

  predicate PathSafeVersion(version: string) {
    version != "" && forall i :: 0 <= i < |version| ==>
      || '0' <= version[i] <= '9' || 'A' <= version[i] <= 'Z' || 'a' <= version[i] <= 'z'
      || version[i] in {'.', '+', '-'}
  }

  /** `preservedStageInstallerPaths`, with the architecture of the running build. */
  function Preserved(state: State, build: Build): set<string> {
    (if state.stagedPath.Some? then {state.stagedPath.value} else {}) +
    (if state.targetVersion.Some? && PathSafeVersion(state.targetVersion.value)
     then {StagePath(build.machine, state.targetVersion.value, build.architecture)} else {})
  }

  // ---- states

  function Initial(build: Build, now: int): State {
    State(build.architecture, None, build.channel, build.currentVersion, None, Idle, 0, None, None, 0, now)
  }

  function Failure(state: State, code: string, now: int): State {
    state.(error := Some(code), phase := Failed, updatedAt := now)
  }

  /** `writeState` stamps every state with the running build. */
  function Stamped(state: State, build: Build, now: int): State {
    state.(architecture := build.architecture, channel := build.channel,
           currentVersion := build.currentVersion, updatedAt := now)
  }

  predicate Newer(target: string, current: string) {
    var order := Versions.Compare(target, current);
    order.Some? && order.value > 0
  }

  predicate Belongs(state: State, build: Build) {
    && state.architecture == build.architecture
    && state.channel == build.channel
    && state.currentVersion == build.currentVersion
  }

  predicate FileMatches(files: map<string, Content>, path: string, artifact: Versions.Artifact, hash: Content -> string) {
    path in files && |files[path]| == artifact.sizeBytes && hash(files[path]) == artifact.sha256
  }

  /** What is sent is the artifact. */
  predicate Delivers(sent: Transmission, artifact: Versions.Artifact, hash: Content -> string) {
    && (sent.contentLength.Some? ==> sent.contentLength.value == artifact.sizeBytes)
    && |Flatten(sent.chunks)| == artifact.sizeBytes && hash(Flatten(sent.chunks)) == artifact.sha256
  }

  predicate ClaimsFile(state: State) {
    state.phase in {Staged, Applying}
  }

  predicate ClaimsUpdate(state: State) {
    state.phase in {Available, Downloading, Staged, Applying}
  }

  /** A matching artifact, its size, and a target strictly newer than the version the state names. */
  predicate CarriesUpdate(state: State, machine: Machine) {
    && state.artifact.Some? && state.targetVersion.Some?
    && state.totalBytes == state.artifact.value.sizeBytes
    && state.artifact.value.platform == machine.platform
    && state.artifact.value.architecture == state.architecture
    && Newer(state.targetVersion.value, state.currentVersion)
  }

  predicate CarriesFile(state: State, files: map<string, Content>, machine: Machine) {
    && state.artifact.Some? && state.targetVersion.Some? && state.stagedPath.Some?
    && FileMatches(files, state.stagedPath.value, state.artifact.value, machine.hash)
    && state.stagedPath.value == StagePath(machine, state.targetVersion.value, state.architecture)
  }

  /** What a persisted state promises about itself and about the stage directory. */
  predicate Coherent(state: State, files: map<string, Content>, machine: Machine) {
    && (ClaimsUpdate(state) ==> CarriesUpdate(state, machine))
    && (ClaimsFile(state) ==> CarriesFile(state, files, machine))
    && (state.phase in {Idle, Available, Downloading} ==> state.stagedPath == None)
  }

  predicate Consistent(shot: Shot, machine: Machine) {
    shot.stored.Some? ==> Coherent(shot.stored.value, shot.files, machine)
  }

  /** An update that the state claims is for the running build and newer than it.  Reading the state decides it. */
  predicate StillNewer(state: State, build: Build) {
    ClaimsUpdate(state) ==>
      && state.architecture == build.architecture
      && state.targetVersion.Some? && Newer(state.targetVersion.value, build.currentVersion)
  }

  /** What a cancelled check, a download and an apply write of the state they found. */
  function CancelledState(previous: State, build: Build, now: int): State {
    Stamped(previous.(error := None), build, now)
  }

  function DownloadingState(available: State, build: Build, now: int): State {
    Stamped(available.(error := None, phase := Downloading, progressBytes := 0), build, now)
  }

  function ApplyingState(staged: State, build: Build, now: int): State {
    Stamped(staged.(error := None, phase := Applying), build, now)
  }

  /** What becomes of an interrupted download: staged if its file is complete, available again if not. */
  function Recovered(state: State, files: map<string, Content>, build: Build, now: int): State
    requires state.artifact.Some? && state.targetVersion.Some?
  {
    var destination := StagePath(build.machine, state.targetVersion.value, build.architecture);
    var complete := FileMatches(files, destination, state.artifact.value, build.machine.hash);
    state.(
      error := Some("download_interrupted"),
      phase := if complete then Staged else Available,
      progressBytes := if complete then state.artifact.value.sizeBytes else 0,
      stagedPath := if complete then Some(destination) else None,
      updatedAt := now)
  }

  /** Where reconciliation may end. */
  predicate Settled(state: State, build: Build) {
    Belongs(state, build) && state.phase in {Idle, Available, Staged, Failed}
  }

  /** No removable file is left in the stage directory except the preserved ones. */
  predicate Tidy(files: map<string, Content>, preserved: set<string>, machine: Machine) {
    forall path :: path in files && Removable(machine, path) ==> path in preserved
  }

  /** `after` is `before` without some removable files that were not to be preserved. */
  predicate Shrunk(before: map<string, Content>, after: map<string, Content>, preserved: set<string>, machine: Machine) {
    && (forall path :: path in after ==> path in before && after[path] == before[path])
    && (forall path :: path in before && path !in after ==> Removable(machine, path) && path !in preserved)
  }

  /** The same files but for some paths. */
  ghost predicate SameBut(before: map<string, Content>, after: map<string, Content>, paths: set<string>) {
    forall path :: path !in paths ==> (path in before <==> path in after) && (path in before ==> after[path] == before[path])
  }

  class UpdateManager {
    const build: Build
    var stored: Option<State>
    var files: map<string, Content>
    /** the observer's record of the disk */
    var trace: seq<Shot>
    /** some step of the outside world has failed: a read, a write, a removal, the network */
    ghost var faulted: bool

    /** A process starts on whatever disk the previous one left behind. */
    constructor (build: Build, stored: Option<State>, files: map<string, Content>)
      ensures this.build == build && this.stored == stored && this.files == files
      ensures trace == [Shot(stored, files)] && !faulted
    {
      this.build, this.stored, this.files, faulted := build, stored, files, false;
      trace := [Shot(stored, files)];
    }

    /** Every point of the run so far is consistent. */
    ghost predicate AllConsistent()
      reads this
    {
      && |trace| > 0 && trace[|trace| - 1] == Shot(stored, files)
      && forall i :: 0 <= i < |trace| ==> Consistent(trace[i], build.machine)
    }

    /** The update that the persisted state claims, if any, is for the running build and newer than it. */
    predicate OffersNewer()
      reads this
    {
      stored.Some? ==> StillNewer(stored.value, build)
    }

    predicate NoFileClaim()
      reads this
    {
      stored.Some? ==> !ClaimsFile(stored.value)
    }

    predicate SaysApplying()
      reads this
    {
      stored.Some? && stored.value.phase == Applying
    }

    method Record()
      modifies this`trace
      ensures trace == old(trace) + [Shot(stored, files)]
    {
      trace := trace + [Shot(stored, files)];
    }

    // ---- the state file

    /** `stateStore.read`: `None` when it throws. */
    method Read() returns (state: Option<State>)
      modifies this`faulted
      ensures faulted == (old(faulted) || state.None?)
      ensures state.Some? && stored.Some? ==> state == stored
      ensures state.Some? && stored.None? ==> exists now :: state == Some(Initial(build, now))
    {
      var fault: bool, now: int := *, *;
      faulted := faulted || fault;
      if fault {
        return None;
      }
      return if stored.Some? then stored else Some(Initial(build, now));
    }

    /** `stateStore.write`: the rename replaces the whole state or nothing. */
    method Write(state: State) returns (ok: bool)
      modifies this`stored, this`trace, this`faulted
      ensures faulted == (old(faulted) || !ok)
      ensures stored == if ok then Some(state) else old(stored)
      ensures trace == old(trace) + [Shot(stored, files)]
      ensures old(AllConsistent()) && (ok ==> Coherent(state, files, build.machine)) ==> AllConsistent()
    {
      var fault: bool := *;
      ok, faulted := !fault, faulted || fault;
      if ok {
        stored := Some(state);
      }
      Record();
    }

    method WriteState(state: State) returns (ok: bool)
      modifies this`stored, this`trace, this`faulted
      ensures faulted == (old(faulted) || !ok)
      ensures !ok ==> stored == old(stored)
      ensures ok ==> stored.Some? && stored.value == Stamped(state, build, stored.value.updatedAt)
      ensures trace == old(trace) + [Shot(stored, files)]
      ensures old(AllConsistent()) && (ok ==> Coherent(Stamped(state, build, 0), files, build.machine)) ==> AllConsistent()
    {
      var now: int := *;
      ok := Write(Stamped(state, build, now));
    }

    // ---- the stage directory

    /** One removal from the stage directory; a locked file stays. */
    method Remove(path: string) returns (removed: bool)
      modifies this`files, this`trace, this`faulted
      ensures faulted == (old(faulted) || !removed)
      ensures files == if removed then old(files) - {path} else old(files)
      ensures old(trace) <= trace
      ensures old(AllConsistent()) && (stored.Some? && ClaimsFile(stored.value) ==> stored.value.stagedPath != Some(path)) ==>
                AllConsistent()
    {
      var locked: bool := *;
      removed, faulted := !locked, faulted || locked;
      if removed {
        files := files - {path};
        Record();
      }
    }

    /** `cleanupUpdateStageArtifacts`; a file that cannot be removed is skipped. */
    method Cleanup(preserved: set<string>) returns (complete: bool)
      modifies this`files, this`trace, this`faulted
      ensures old(faulted) ==> faulted
      ensures Shrunk(old(files), files, preserved, build.machine)
      ensures if complete then Tidy(files, preserved, build.machine) else faulted
      ensures old(trace) <= trace
      ensures old(AllConsistent()) && (stored.Some? && ClaimsFile(stored.value) ==> stored.value.stagedPath.value in preserved)
              ==> AllConsistent()
    {
      var unreadable: bool := *;
      if unreadable {
        faulted := true;
        Record();
        return false;
      }
      var entries := set path | path in files && Removable(build.machine, path);
      complete := true;
      while entries != {}
        invariant entries <= files.Keys && forall path :: path in entries ==> Removable(build.machine, path)
        invariant Shrunk(old(files), files, preserved, build.machine) && old(trace) <= trace
        invariant complete ==> forall path :: path in files && Removable(build.machine, path) && path !in entries ==> path in preserved
        invariant (old(faulted) ==> faulted) && (!complete ==> faulted)
        invariant old(AllConsistent()) && (stored.Some? && ClaimsFile(stored.value) ==> stored.value.stagedPath.value in preserved)
                  ==> AllConsistent()
        decreases entries
      {
        var path :| path in entries;
        entries := entries - {path};
        if path !in preserved {
          var removed := Remove(path);
          complete := complete && removed;
        }
      }
      Record();
    }

    /** `verifyStagedUpdateArtifact`. */
    method VerifyStaged(path: string, artifact: Versions.Artifact) returns (verdict: Verdict)
      modifies this`faulted
      ensures faulted == (old(faulted) || verdict == Unreadable)
      ensures verdict == Verified ==> FileMatches(files, path, artifact, build.machine.hash)
      ensures verdict == Missing ==> path !in files
      ensures verdict == Changed ==> path in files && !FileMatches(files, path, artifact, build.machine.hash)
    {
      if path !in files {
        return Missing;
      }
      var fault: bool := *;
      faulted := faulted || fault;
      if fault {
        return Unreadable;
      }
      return if FileMatches(files, path, artifact, build.machine.hash) then Verified else Changed;
    }

    /** `reuseExistingStagedArtifact`: a file that does not match is removed. */
    method ReuseExisting(path: string, artifact: Versions.Artifact) returns (reuse: Reuse)
      modifies this`files, this`trace, this`faulted
      ensures faulted == (old(faulted) || reuse == ReuseError)
      ensures reuse == NotReused ==> !FileMatches(old(files), path, artifact, build.machine.hash)
      ensures files == if reuse == NotReused then old(files) - {path} else old(files)
      ensures trace == old(trace) + [Shot(stored, files)]
      ensures reuse == Reused ==> FileMatches(files, path, artifact, build.machine.hash)
      ensures old(AllConsistent()) && NoFileClaim() ==> AllConsistent()
    {
      var verdict := VerifyStaged(path, artifact);
      match verdict {
        case Verified => reuse := Reused;
        case Unreadable => reuse := ReuseError;
        case _ =>
          var fault: bool := *;
          if fault {
            reuse, faulted := ReuseError, true;
          } else {
            reuse := NotReused;
            files := files - {path};
          }
      }
      Record();
    }

    /** One change of the stage directory. */
    method SetFiles(next: map<string, Content>)
      modifies this`files, this`trace
      ensures files == next && trace == old(trace) + [Shot(stored, files)]
      ensures old(AllConsistent()) && NoFileClaim() ==> AllConsistent()
    {
      files := next;
      Record();
    }

    /** `downloadUpdateArtifact`: chunks go to a partial file, which is renamed to the destination only
        when the declared size and digest were received.  Without a fault that is when the artifact is sent. */
    method Download(artifact: Versions.Artifact, destination: string, sent: Transmission) returns (transfer: Transfer)
      modifies this`files, this`trace, this`faulted
      ensures old(faulted) ==> faulted
      ensures transfer == Transferred ==> FileMatches(files, destination, artifact, build.machine.hash)
      ensures transfer == Transferred ==>
                && destination !in old(files) && artifact.sizeBytes <= build.maxArtifactBytes
                && Delivers(sent, artifact, build.machine.hash) && files[destination] == Flatten(sent.chunks)
      ensures transfer != Transferred ==>
                || faulted || destination in old(files) || artifact.sizeBytes > build.maxArtifactBytes
                || !Delivers(sent, artifact, build.machine.hash)
      ensures transfer == TransferCancelled ==> sent.cancelled
      ensures SameBut(old(files), files, {destination, destination + ".part"})
      ensures transfer != Transferred ==> SameBut(old(files), files, {destination + ".part"})
      ensures transfer != Transferred && artifact.sizeBytes <= build.maxArtifactBytes ==> faulted || destination + ".part" !in files
      ensures old(trace) <= trace
      ensures old(AllConsistent()) && NoFileClaim() ==> AllConsistent()
    {
      var partial := destination + ".part";
      assert |partial| != |destination|;
      var fault: bool := *;
      faulted := faulted || fault;
      if artifact.sizeBytes > build.maxArtifactBytes || fault {
        return TransferFailed;
      }
      SetFiles(files - {partial});
      if destination in files {
        return TransferFailed;
      }
      fault := *;
      faulted := faulted || fault;
      if fault || (sent.contentLength.Some? && sent.contentLength.value != artifact.sizeBytes) {
        return if sent.cancelled then TransferCancelled else TransferFailed;
      }
      transfer := ReceiveFile(artifact, destination, partial, sent);
    }

    /** What is received becomes the file at the destination, if it is the artifact; else the partial file goes. */
    method ReceiveFile(artifact: Versions.Artifact, destination: string, partial: string, sent: Transmission) returns (transfer: Transfer)
      modifies this`files, this`trace, this`faulted
      ensures old(faulted) ==> faulted
      ensures transfer == Transferred ==>
                && |Flatten(sent.chunks)| == artifact.sizeBytes && build.machine.hash(Flatten(sent.chunks)) == artifact.sha256
                && files == (old(files) - {partial})[destination := Flatten(sent.chunks)]
      ensures transfer != Transferred ==>
                && SameBut(old(files), files, {partial})
                && (faulted || partial !in files)
                && (faulted || |Flatten(sent.chunks)| != artifact.sizeBytes
                    || build.machine.hash(Flatten(sent.chunks)) != artifact.sha256)
      ensures transfer == TransferCancelled ==> sent.cancelled
      ensures old(trace) <= trace
      ensures old(AllConsistent()) && NoFileClaim() ==> AllConsistent()
    {
      var received := Receiving(artifact, partial, sent.chunks);
      var fault: bool := *;
      if received.None? || |received.value| != artifact.sizeBytes || build.machine.hash(received.value) != artifact.sha256 || fault {
        faulted := faulted || fault;
        var removed := Remove(partial);
        return if sent.cancelled then TransferCancelled else TransferFailed;
      }
      SetFiles((files - {partial})[destination := received.value]);
      return Transferred;
    }

    /** The chunks are written to the partial file; `None` when a write fails or they exceed the declared size. */
    method Receiving(artifact: Versions.Artifact, partial: string, chunks: seq<Content>) returns (received: Option<Content>)
      modifies this`files, this`trace, this`faulted
      ensures old(faulted) ==> faulted
      ensures if received.Some? then received.value == Flatten(chunks) else faulted || |Flatten(chunks)| > artifact.sizeBytes
      // never more is written than the declared size
      ensures partial in files && |files[partial]| <= artifact.sizeBytes && files == old(files)[partial := files[partial]]
      ensures received.Some? ==> received.value == files[partial]
      ensures old(trace) <= trace
      ensures old(AllConsistent()) && NoFileClaim() ==> AllConsistent()
    {
      var content: Content := [];
      SetFiles(files[partial := content]);
      for i := 0 to |chunks|
        invariant content == Flatten(chunks[..i])
        invariant files == old(files)[partial := content] && |content| <= artifact.sizeBytes
        invariant old(trace) <= trace && (old(faulted) ==> faulted)
        invariant old(AllConsistent()) && NoFileClaim() ==> AllConsistent()
      {
        var fault: bool := *;
        assert chunks[..i + 1] == chunks[..i] + [chunks[i]];
        FlattenSnoc(chunks[..i], chunks[i]);
        FlattenLength(chunks, i + 1);
        if fault || |content| + |chunks[i]| > artifact.sizeBytes {
          faulted := faulted || fault;
          return None;
        }
        content := content + chunks[i];
        SetFiles(files[partial := content]);
      }
      assert chunks[..|chunks|] == chunks;
      received := Some(content);
    }

    // ---- operations

    /** `persistOperationError`. */
    method PersistError(previous: State, code: string)
      modifies this`stored, this`trace, this`faulted
      ensures old(faulted) ==> faulted
      ensures !faulted ==> exists now :: stored == Some(Failure(previous, code, now))
      ensures stored == old(stored) || exists now :: stored == Some(Failure(previous, code, now))
      ensures old(trace) <= trace
      ensures old(AllConsistent()) ==> AllConsistent()
    {
      var now: int := *;
      var ok := Write(Failure(previous, code, now));
    }

    /** The part of `checkForUpdate` between the answer of the server and the last write: the state to
        write, or the error code. */
    function CheckedState(previous: State, manifest: Manifest): (r: (Option<State>, string)) {
      if manifest.channel != build.channel then (None, "invalid_manifest") else
      var selected := Versions.Select(manifest.artifacts, build.machine.platform, build.architecture);
      if selected.None? then (None, "invalid_manifest")
      else if selected.value.sizeBytes > build.maxArtifactBytes then (None, "artifact_size_mismatch")
      else if !build.allowedUrl(selected.value.url) then (None, "invalid_update_source")
      else
        var order := Versions.Compare(manifest.version, build.currentVersion);
        if order.None? || order.value < 0 then (None, "invalid_manifest")
        else if order.value > 0 then
          (Some(previous.(artifact := selected, error := None, phase := Available, progressBytes := 0, stagedPath := None,
                          targetVersion := Some(manifest.version), totalBytes := selected.value.sizeBytes)), "")
        else
          (Some(previous.(artifact := None, error := None, phase := Idle, progressBytes := 0, stagedPath := None,
                          targetVersion := None, totalBytes := 0)), "")
    }

    /** A manifest for this channel with an artifact for this machine, small enough and from an allowed place. */
    predicate Acceptable(manifest: Manifest) {
      && manifest.channel == build.channel
      && var selected := Versions.Select(manifest.artifacts, build.machine.platform, build.architecture);
         selected.Some? && selected.value.sizeBytes <= build.maxArtifactBytes && build.allowedUrl(selected.value.url)
    }

    /** What the manifest has to be for a check to end in this error. */
    predicate Refused(manifest: Manifest, code: string) {
      var selected := Versions.Select(manifest.artifacts, build.machine.platform, build.architecture);
      if manifest.channel != build.channel || selected.None? then code == "invalid_manifest"
      else if selected.value.sizeBytes > build.maxArtifactBytes then code == "artifact_size_mismatch"
      else if !build.allowedUrl(selected.value.url) then code == "invalid_update_source"
      else code == "invalid_manifest" && !Newer(manifest.version, build.currentVersion)
           && Versions.Compare(manifest.version, build.currentVersion) != Some(0)
    }

    /** The end of `checkForUpdate`, once the server has answered. */
    method Receive(previous: State, manifest: Manifest) returns (result: CheckResult)
      modifies this`stored, this`trace, this`faulted
      ensures old(faulted) ==> faulted
      // without a fault an acceptable manifest is offered when it is newer, and nothing is new when it is the same
      ensures Acceptable(manifest) && Newer(manifest.version, build.currentVersion) ==> result == UpdateAvailable || faulted
      ensures Acceptable(manifest) && Versions.Compare(manifest.version, build.currentVersion) == Some(0) ==>
                result == UpToDate || faulted
      ensures result == CheckError && !faulted ==>
                exists code, now :: Refused(manifest, code) && stored == Some(Failure(previous, code, now))
      ensures old(AllConsistent()) ==> AllConsistent()
      ensures old(OffersNewer()) ==> OffersNewer()
      ensures result in {UpdateAvailable, UpToDate} ==> Acceptable(manifest)
      ensures result == UpdateAvailable ==>
                && Newer(manifest.version, build.currentVersion)
                && stored.Some? && stored.value.phase == Available && Belongs(stored.value, build)
                && stored.value.error.None? && stored.value.progressBytes == 0
                && stored.value.targetVersion == Some(manifest.version)
                && CarriesUpdate(stored.value, build.machine) && stored.value.stagedPath == None
                && stored.value.artifact == Versions.Select(manifest.artifacts, build.machine.platform, build.architecture)
                && stored.value.artifact.value in manifest.artifacts
      ensures result == UpToDate ==>
                && Versions.Compare(manifest.version, build.currentVersion) == Some(0)
                && stored.Some? && stored.value == Initial(build, stored.value.updatedAt)
      ensures result != CheckCancelled
    {
      var (next, code) := CheckedState(previous, manifest);
      if next.None? {
        PersistError(previous, code);
        return CheckError;
      }
      var ok := WriteState(next.value);
      if !ok {
        PersistError(previous, "download_failed");
        return CheckError;
      }
      return if next.value.phase == Available then UpdateAvailable else UpToDate;
    }

    /** `checkForUpdate`. */
    method CheckForUpdate(response: Response) returns (result: CheckResult)
      modifies this`stored, this`trace, this`faulted
      ensures old(faulted) ==> faulted
      // without a fault the answer is that of the server
      ensures response.Received? && Acceptable(response.manifest) && Newer(response.manifest.version, build.currentVersion) ==>
                result == UpdateAvailable || faulted
      ensures response.Received? && Acceptable(response.manifest)
              && Versions.Compare(response.manifest.version, build.currentVersion) == Some(0) ==>
                result == UpToDate || faulted
      ensures result in {UpdateAvailable, UpToDate} ==> response.Received? && Acceptable(response.manifest)
      ensures response.Aborted? ==> result == CheckCancelled || faulted
      ensures result == CheckError && !faulted ==>
                exists code, previous, now :: stored == Some(Failure(previous, code, now))
                  && (if response.Received? then Refused(response.manifest, code) else response == Broken(code))
                  && (old(stored).Some? ==> previous == old(stored).value)
      // only a cancelled check asks something of the state it begins with
      ensures old(AllConsistent()) && (response.Aborted? ==> old(OffersNewer())) ==> AllConsistent()
      ensures old(OffersNewer()) ==> OffersNewer()
      ensures old(AllConsistent()) && result == CheckCancelled && old(stored).Some?
              && stored.Some? && stored.value.phase == old(stored).value.phase ==>
                (AllConsistent() <==> old(OffersNewer()))
      ensures result == UpdateAvailable ==>
                && response.Received? && Newer(response.manifest.version, build.currentVersion)
                && stored.Some? && stored.value.phase == Available && Belongs(stored.value, build)
                && stored.value.error.None? && stored.value.progressBytes == 0
                && stored.value.targetVersion == Some(response.manifest.version)
                && CarriesUpdate(stored.value, build.machine) && stored.value.stagedPath == None
                && stored.value.artifact == Versions.Select(response.manifest.artifacts, build.machine.platform, build.architecture)
                && stored.value.artifact.value in response.manifest.artifacts
      ensures result == UpToDate ==>
                && response.Received? && Versions.Compare(response.manifest.version, build.currentVersion) == Some(0)
                && stored.Some? && stored.value == Initial(build, stored.value.updatedAt)
      // a cancelled check ends in the state it began with, unless one of its own writes fails
      ensures result == CheckCancelled ==> response.Aborted?
      ensures result == CheckCancelled && old(stored).Some? ==>
                && stored.Some?
                && var restored := Stamped(old(stored).value.(error := None), build, stored.value.updatedAt);
                   stored.value == restored || (faulted && stored.value == restored.(phase := Checking))
    {
      var read := Read();
      if read.None? {
        return CheckError;
      }
      var previous := read.value;
      var ok := WriteState(previous.(error := None, phase := Checking));
      if !ok {
        return CheckError;
      }
      match response {
        case Aborted =>
          ok := WriteState(previous.(error := None));
          return CheckCancelled;
        case Broken(code) =>
          PersistError(previous, code);
          return CheckError;
        case Received(manifest) =>
          result := Receive(previous, manifest);
      }
    }

    /** The state offers an update to download. */
    predicate Downloadable(state: State) {
      state.phase == Available && state.artifact.Some? && state.targetVersion.Some?
    }

    /** The artifact can be had: its file is there, or it is sent and small enough. */
    predicate Obtainable(state: State, files: map<string, Content>, sent: Transmission)
      requires Downloadable(state)
    {
      || FileMatches(files, StagePath(build.machine, state.targetVersion.value, build.architecture), state.artifact.value,
                     build.machine.hash)
      || (state.artifact.value.sizeBytes <= build.maxArtifactBytes && Delivers(sent, state.artifact.value, build.machine.hash))
    }

    /** What is stored from the beginning of a download on. */
    predicate BeginsDownload(state: State, available: State) {
      state == Stamped(available.(error := None, phase := Downloading, progressBytes := 0), build, state.updatedAt)
    }

    /** `downloadAvailableUpdate`. */
    method DownloadAvailableUpdate(sent: Transmission) returns (result: DownloadResult)
      modifies this`stored, this`files, this`trace, this`faulted
      ensures old(faulted) ==> faulted
      // without a fault an offered update that can be had is staged, and any other end is written down
      ensures result != DownloadStaged ==>
                faulted || old(stored).None? || !Downloadable(old(stored).value) || !Obtainable(old(stored).value, old(files), sent)
      ensures result == DownloadCancelled ==> sent.cancelled
      // the first thing written is that the download has begun
      ensures old(stored).Some? && (result != DownloadError || stored != old(stored)) ==>
                && |old(trace)| < |trace| && trace[|old(trace)|].stored.Some?
                && BeginsDownload(trace[|old(trace)|].stored.value, old(stored).value)
      ensures old(stored).Some? && Downloadable(old(stored).value) && result == DownloadCancelled && !faulted ==>
                && stored.Some?
                && stored.value == Stamped(old(stored).value.(error := None, progressBytes := 0), build, stored.value.updatedAt)
      ensures old(stored).Some? && Downloadable(old(stored).value) && result == DownloadError && !faulted ==>
                exists code, now :: stored == Some(Failure(old(stored).value, code, now))
      ensures old(stored).Some? && !Downloadable(old(stored).value) ==> result == DownloadError && stored == old(stored)
      ensures old(AllConsistent()) && old(OffersNewer()) ==> AllConsistent()
      ensures old(OffersNewer()) ==> OffersNewer()
      ensures old(AllConsistent()) && (result != DownloadError || stored != old(stored)) ==> (AllConsistent() <==> old(OffersNewer()))
      ensures result == DownloadStaged ==>
                && stored.Some? && stored.value.phase == Staged
                && CarriesFile(stored.value, files, build.machine)
                && stored.value.progressBytes == stored.value.artifact.value.sizeBytes
      ensures result == DownloadStaged && old(stored).Some? ==>
                && old(stored).value.phase == Available
                && stored.value.artifact == old(stored).value.artifact
                && stored.value.targetVersion == old(stored).value.targetVersion
      // nothing but the stage directory's durable files and the target's own files is touched
      ensures forall path :: path in old(files) && path !in files ==>
                || Removable(build.machine, path)
                || (old(stored).Some? && old(stored).value.targetVersion.Some?
                    && path in StageFiles(old(stored).value.targetVersion.value))
      ensures SaysApplying() ==> old(SaysApplying())
    {
      var read := Read();
      if read.None? {
        return DownloadError;
      }
      var available := read.value;
      if !Downloadable(available) {
        return DownloadError;
      }
      var ok := WriteState(available.(error := None, phase := Downloading, progressBytes := 0));
      if !ok {
        return DownloadError;
      }
      var code: string;
      result, code := StageArtifact(available, sent);
      if result != DownloadStaged {
        EndDownload(available, result, code);
      }
    }

    /** The `catch` block of `downloadAvailableUpdate`. */
    method EndDownload(available: State, result: DownloadResult, code: string)
      requires Downloadable(available) && result != DownloadStaged
      modifies this`stored, this`trace, this`faulted
      ensures old(faulted) ==> faulted
      ensures result == DownloadCancelled && !faulted ==>
                stored.Some? && stored.value == Stamped(available.(error := None, progressBytes := 0), build, stored.value.updatedAt)
      ensures result == DownloadError && !faulted ==> exists now :: stored == Some(Failure(available, code, now))
      ensures stored == old(stored) || (stored.Some? && stored.value.phase in {Available, Failed})
      ensures stored == old(stored) || (StillNewer(available, build) ==> StillNewer(stored.value, build))
      ensures old(trace) <= trace
      ensures old(AllConsistent()) && Coherent(available, map[], build.machine) && StillNewer(available, build) ==> AllConsistent()
    {
      if result == DownloadCancelled {
        var ok := WriteState(available.(error := None, phase := Available, progressBytes := 0));
      } else {
        PersistError(available, code);
      }
    }

    /** The two names a target may have in the stage directory. */
    function StageFiles(version: string): set<string> {
      var path := StagePath(build.machine, version, build.architecture);
      {path, path + ".part"}
    }

    /** The `try` block of `downloadAvailableUpdate`. */
    method StageArtifact(available: State, sent: Transmission) returns (result: DownloadResult, code: string)
      requires Downloadable(available) && stored.Some? && BeginsDownload(stored.value, available)
      modifies this`stored, this`files, this`trace, this`faulted
      ensures old(faulted) ==> faulted
      ensures result != DownloadStaged ==> faulted || !Obtainable(available, old(files), sent)
      ensures result == DownloadCancelled ==> sent.cancelled
      ensures result != DownloadStaged ==> stored == old(stored)
      ensures old(trace) <= trace
      ensures old(AllConsistent()) && Coherent(available, map[], build.machine) && StillNewer(available, build) ==> AllConsistent()
      ensures result == DownloadStaged ==>
                && stored.Some? && CarriesFile(stored.value, files, build.machine)
                && stored.value == Stamped(available.(error := None, phase := Staged,
                     progressBytes := available.artifact.value.sizeBytes,
                     stagedPath := Some(StagePath(build.machine, available.targetVersion.value, build.architecture))),
                     build, stored.value.updatedAt)
      ensures forall path :: path in old(files) && path !in files ==>
                Removable(build.machine, path) || path in StageFiles(available.targetVersion.value)
    {
      var fault: bool := *;
      faulted := faulted || fault;
      if fault {    // mkdir
        return DownloadError, "download_failed";
      }
      var artifact := available.artifact.value;
      var destination := StagePath(build.machine, available.targetVersion.value, build.architecture);
      result, code := Fetch(artifact, destination, sent);
      if result != DownloadStaged {
        return;
      }
      var staged := available.(error := None, phase := Staged, progressBytes := artifact.sizeBytes, stagedPath := Some(destination));
      var ok := WriteState(staged);
      return if ok then DownloadStaged else DownloadError, code;
    }

    /** The artifact's file is brought to the stage directory, unless it is there. */
    method Fetch(artifact: Versions.Artifact, destination: string, sent: Transmission) returns (result: DownloadResult, code: string)
      requires NoFileClaim()
      modifies this`files, this`trace, this`faulted
      ensures old(faulted) ==> faulted
      ensures result != DownloadStaged ==>
                || faulted
                || (!FileMatches(old(files), destination, artifact, build.machine.hash)
                    && (artifact.sizeBytes > build.maxArtifactBytes || !Delivers(sent, artifact, build.machine.hash)))
      ensures result == DownloadCancelled ==> sent.cancelled
      ensures old(trace) <= trace
      ensures old(AllConsistent()) ==> AllConsistent()
      ensures result == DownloadStaged ==> FileMatches(files, destination, artifact, build.machine.hash)
      ensures forall path :: path in old(files) && path !in files ==>
                Removable(build.machine, path) || path in {destination, destination + ".part"}
    {
      code := "download_failed";
      var complete := Cleanup({destination});
      var reuse := ReuseExisting(destination, artifact);
      if reuse == ReuseError {
        return DownloadError, code;
      }
      if reuse == NotReused {
        var transfer := Download(artifact, destination, sent);
        match transfer {
          case Transferred =>
          case TransferCancelled => return DownloadCancelled, code;
          case TransferFailed =>
            code := *;
            return DownloadError, code;
        }
      }
      result := DownloadStaged;
    }

    /** A staged update whose file is there as it was verified. */
    predicate Applicable(state: State, files: map<string, Content>) {
      && state.phase == Staged && state.artifact.Some? && state.stagedPath.Some? && state.targetVersion.Some?
      && FileMatches(files, state.stagedPath.value, state.artifact.value, build.machine.hash)
    }

    /** `prepareApply`: the staged file is verified again before the state says `applying`. */
    method PrepareApply() returns (handoff: Option<Handoff>)
      modifies this`stored, this`trace, this`faulted
      ensures old(faulted) ==> faulted
      ensures handoff.None? ==> faulted || old(stored).None? || !Applicable(old(stored).value, files)
      ensures old(AllConsistent()) ==> (AllConsistent() <==> handoff.None? || old(OffersNewer()))
      ensures old(OffersNewer()) ==> OffersNewer()
      ensures handoff.Some? ==>
                && stored.Some? && stored.value.phase == Applying && old(stored).Some? && old(stored).value.phase == Staged
                && stored.value == Stamped(old(stored).value.(error := None, phase := Applying), build, stored.value.updatedAt)
                && stored.value.artifact == Some(handoff.value.artifact)
                && stored.value.stagedPath == Some(handoff.value.installerPath)
                && stored.value.targetVersion == Some(handoff.value.targetVersion)
                && FileMatches(files, handoff.value.installerPath, handoff.value.artifact, build.machine.hash)
      ensures handoff.None? ==> stored == old(stored)
    {
      var read := Read();
      if read.None? {
        return None;
      }
      var staged := read.value;
      if staged.phase != Staged || staged.artifact.None? || staged.stagedPath.None? || staged.targetVersion.None? {
        return None;
      }
      var verdict := VerifyStaged(staged.stagedPath.value, staged.artifact.value);
      if verdict != Verified {
        return None;
      }
      var ok := WriteState(staged.(error := None, phase := Applying));
      if !ok {
        return None;
      }
      return Some(Handoff(staged.artifact.value, staged.stagedPath.value, staged.targetVersion.value));
    }

    /** `recordApplyLaunchFailure`; false when it throws. */
    method RecordApplyLaunchFailure(code: string) returns (ok: bool)
      modifies this`stored, this`trace, this`faulted
      ensures faulted == (old(faulted) || !ok)
      ensures old(AllConsistent()) ==> AllConsistent()
      ensures old(OffersNewer()) ==> OffersNewer()
      ensures ok ==> stored.None? || stored.value.phase != Applying
      ensures ok && old(stored).Some? && old(stored).value.phase == Applying ==>
                stored.Some? && stored.value ==
                  old(stored).value.(error := Some(code), phase := Staged, updatedAt := stored.value.updatedAt)
      ensures !ok || old(stored).None? || old(stored).value.phase != Applying ==> stored == old(stored)
    {
      var read := Read();
      if read.None? {
        return false;
      }
      var applying := read.value;
      if applying.phase != Applying {
        return true;
      }
      var now: int := *;
      ok := Write(applying.(error := Some(code), phase := Staged, updatedAt := now));
    }

    // ---- reconciliation after a start

    /** Write a fresh state and clean up after it. */
    method Reset(fresh0: State) returns (state: Option<State>, complete: bool)
      requires Coherent(fresh0, map[], build.machine) && !ClaimsFile(fresh0)
      modifies this`stored, this`files, this`trace, this`faulted
      ensures (old(faulted) || state.None? || !complete) ==> faulted
      ensures old(AllConsistent()) ==> AllConsistent()
      ensures Shrunk(old(files), files, Preserved(fresh0, build), build.machine)
      ensures state.Some? ==> state.value == fresh0 && stored == Some(fresh0)
      ensures state.None? ==> stored == old(stored) && files == old(files)
      ensures complete && state.Some? ==> Tidy(files, Preserved(fresh0, build), build.machine)
      ensures fresh0.phase != Applying && SaysApplying() ==> old(SaysApplying())
    {
      complete := true;
      var ok := Write(fresh0);
      if !ok {
        return None, complete;
      }
      complete := Cleanup(Preserved(fresh0, build));
      return Some(fresh0), complete;
    }

    /** The metadata checks on an interrupted download: `None` when they pass, else the error code. */
    function InterruptedDownloadError(state: State): Option<string> {
      if state.artifact.None? || state.targetVersion.None?
         || state.artifact.value.architecture != build.architecture
         || state.artifact.value.platform != build.machine.platform
         || state.totalBytes != state.artifact.value.sizeBytes then Some("invalid_state")
      else if Versions.Compare(state.targetVersion.value, build.currentVersion).None? then Some("invalid_manifest")
      else if !Newer(state.targetVersion.value, build.currentVersion) then Some("invalid_state")
      else if !build.allowedUrl(state.artifact.value.url) then Some("invalid_update_source")
      else None
    }

    /** A download of an update for this machine, still newer and from an allowed place. */
    predicate Resumable(state: State) {
      && state.artifact.Some? && state.targetVersion.Some?
      && state.artifact.value.architecture == build.architecture && state.artifact.value.platform == build.machine.platform
      && state.totalBytes == state.artifact.value.sizeBytes
      && Newer(state.targetVersion.value, build.currentVersion) && build.allowedUrl(state.artifact.value.url)
    }

    /** Recover an interrupted apply: the verified installer can be retried. */
    method RecoverApply(state: State) returns (result: Option<State>)
      requires state.phase == Applying && stored == Some(state)
      modifies this`stored, this`trace, this`faulted
      ensures old(faulted) || result.None? ==> faulted
      // without a fault the installer can be retried exactly when its file is intact
      ensures result.Some? && result.value.phase != Staged ==>
                || faulted || state.artifact.None? || state.stagedPath.None? || state.targetVersion.None?
                || !FileMatches(files, state.stagedPath.value, state.artifact.value, build.machine.hash)
      ensures old(AllConsistent()) ==> AllConsistent()
      ensures stored == if result.Some? then result else old(stored)
      ensures result.Some? ==>
                || result.value == state.(error := Some("apply_incomplete"), phase := Staged, updatedAt := result.value.updatedAt)
                || (result.value.error.Some? && result.value == Failure(state, result.value.error.value, result.value.updatedAt))
      ensures result.Some? && result.value.phase == Staged ==>
                && state.artifact.Some? && state.stagedPath.Some? && state.targetVersion.Some?
                && FileMatches(files, state.stagedPath.value, state.artifact.value, build.machine.hash)
      ensures result.Some? && result.value.phase == Failed && result.value.error != Some("apply_incomplete") ==>
                || state.artifact.None? || state.stagedPath.None? || state.targetVersion.None?
                || !FileMatches(files, state.stagedPath.value, state.artifact.value, build.machine.hash)
      ensures SaysApplying() ==> old(SaysApplying())
    {
      var now: int := *;
      var code := "missing_staged_artifact";
      if state.artifact.Some? && state.stagedPath.Some? && state.targetVersion.Some? {
        var verdict := VerifyStaged(state.stagedPath.value, state.artifact.value);
        if verdict == Verified {
          var retryable := state.(error := Some("apply_incomplete"), phase := Staged, updatedAt := now);
          var ok := Write(retryable);
          if ok {
            return Some(retryable);
          }
        }
        code := match verdict
          case Missing => "missing_staged_artifact"
          case Changed => "staged_artifact_changed"
          case _ => "apply_incomplete";
      }
      var failed := Failure(state, code, now);
      var ok := Write(failed);
      return if ok then Some(failed) else None;
    }

    /** The partial file goes, and so does the whole one unless it is the artifact. */
    method Recollect(destination: string, artifact: Versions.Artifact) returns (reuse: Reuse)
      requires NoFileClaim()
      modifies this`files, this`trace, this`faulted
      ensures old(faulted) || reuse == ReuseError ==> faulted
      ensures forall path :: path in files ==> path in old(files) && files[path] == old(files)[path]
      ensures reuse == Reused ==> FileMatches(files, destination, artifact, build.machine.hash)
      ensures reuse == NotReused ==> destination !in files
      ensures old(AllConsistent()) ==> AllConsistent()
    {
      var removed := Remove(destination + ".part");
      if !removed {
        return ReuseError;
      }
      reuse := ReuseExisting(destination, artifact);
    }

    /** The stage directory after a download was cut short: the file is complete, or it is removed. */
    method RecoverStage(state: State) returns (result: Option<State>)
      requires state.phase == Downloading && stored == Some(state) && Belongs(state, build) && InterruptedDownloadError(state).None?
      modifies this`stored, this`files, this`trace, this`faulted
      ensures old(faulted) || result.None? ==> faulted
      ensures old(AllConsistent()) ==> AllConsistent()
      ensures stored == if result.Some? then result else old(stored)
      ensures forall path :: path in files ==> path in old(files) && files[path] == old(files)[path]
      ensures result.Some? ==> result.value == Recovered(state, files, build, result.value.updatedAt)
    {
      var now: int := *;
      var destination := StagePath(build.machine, state.targetVersion.value, build.architecture);
      var reuse := Recollect(destination, state.artifact.value);
      if reuse == ReuseError {
        return None;
      }
      var complete := reuse == Reused;
      var recovered := state.(
        error := Some("download_interrupted"),
        phase := if complete then Staged else Available,
        progressBytes := if complete then state.artifact.value.sizeBytes else 0,
        stagedPath := if complete then Some(destination) else None,
        updatedAt := now);
      var ok := Write(recovered);
      return if ok then Some(recovered) else None;
    }

    /** Recover an interrupted download: the file is there and complete, or the download can be retried. */
    method RecoverDownload(state: State) returns (result: Option<State>)
      requires state.phase == Downloading && stored == Some(state) && Belongs(state, build)
      modifies this`stored, this`files, this`trace, this`faulted
      ensures old(faulted) || result.None? ==> faulted
      // without a fault the download is recovered exactly when its metadata is consistent
      ensures result.Some? ==> if result.value.phase == Failed then !Resumable(state) || faulted else Resumable(state)
      ensures old(AllConsistent()) ==> AllConsistent()
      ensures stored == if result.Some? then result else old(stored)
      ensures forall path :: path in files ==> path in old(files) && files[path] == old(files)[path]
      ensures result.Some? && result.value.phase != Failed ==>
                && state.artifact.Some? && state.targetVersion.Some?
                && result.value == Recovered(state, files, build, result.value.updatedAt)
      ensures result.Some? && result.value.phase == Failed ==>
                result.value.error.Some? && result.value == Failure(state, result.value.error.value, result.value.updatedAt)
      ensures SaysApplying() ==> old(SaysApplying())
    {
      var now: int := *;
      var problem := InterruptedDownloadError(state);
      if problem.None? {
        result := RecoverStage(state);
        if result.Some? {
          return;
        }
      }
      var failed := Failure(state, if problem.Some? then problem.value else "download_interrupted", now);
      var ok := Write(failed);
      return if ok then Some(failed) else None;
    }

    /** The branches of `reconcileInstalledVersion` after its first cleanup. */
    method Resolve(state: State) returns (result: Option<State>, complete: bool)
      requires stored == Some(state) || (stored.None? && Belongs(state, build) && state.phase == Idle)
      modifies this`stored, this`files, this`trace, this`faulted
      ensures old(faulted) || result.None? || !complete ==> faulted
      ensures result.Some? ==> Resolves(state, old(files), files, result.value) || (faulted && Fails(state, result.value))
      ensures old(AllConsistent()) ==> AllConsistent()
      ensures forall path :: path in files ==> path in old(files) && files[path] == old(files)[path]
      ensures result.Some? ==> Settled(result.value, build)
      ensures if result.Some? then stored == result || (stored == old(stored) && result.value == state) else stored == old(stored)
      ensures old(AllConsistent()) && result.Some? && complete ==>
                Tidy(files, Preserved(result.value, build), build.machine)
                || (Preserved(state, build) <= Preserved(result.value, build) && result.value.phase != Idle)
                || result.value == state
      ensures result.Some? && StartsAfresh(state) ==> result.value == Initial(build, result.value.updatedAt)
      ensures result.Some? && state.phase == Applying && Belongs(state, build) && !StartsAfresh(state)
              && CarriesFile(state, old(files), build.machine) ==>
                || result.value == state.(error := Some("apply_incomplete"), phase := Staged, updatedAt := result.value.updatedAt)
                || result.value == Failure(state, "apply_incomplete", result.value.updatedAt)
      ensures result.Some? && result.value.phase == Staged && state.phase == Applying ==> CarriesUpdateFile(result.value, files)
      ensures result.Some? && Settled(state, build) ==> result.value == state && stored == old(stored) && files == old(files)
      ensures SaysApplying() ==> old(SaysApplying())
    {
      var now: int := *;
      complete := true;
      if StartsAfresh(state) {
        result, complete := Reset(Initial(build, now));
      } else if state.phase == Applying && state.currentVersion == build.currentVersion {
        result := RecoverApply(state);
      } else if state.phase == Checking && state.currentVersion == build.currentVersion {
        result, complete := Reset(Initial(build, now).(error := Some("check_interrupted")));
      } else if state.phase == Downloading && state.currentVersion == build.currentVersion {
        result := RecoverDownload(state);
      } else if state.currentVersion == build.currentVersion {
        result := Some(state);
      } else {
        result, complete := Reset(Initial(build, now));
      }
    }

    /** Another distribution, or the target of an interrupted apply is what booted. */
    predicate StartsAfresh(state: State) {
      || state.channel != build.channel || state.architecture != build.architecture
      || (state.phase == Applying && state.targetVersion == Some(build.currentVersion))
    }

    /** What reconciliation makes of a state when nothing fails. */
    predicate Resolves(state: State, before: map<string, Content>, after: map<string, Content>, result: State) {
      if StartsAfresh(state) || state.currentVersion != build.currentVersion then result == Initial(build, result.updatedAt)
      else match state.phase
        case Applying =>
          if CarriesUpdateFile(state, after) && state.targetVersion.Some? then
            result == state.(error := Some("apply_incomplete"), phase := Staged, updatedAt := result.updatedAt)
          else Fails(state, result)
        case Checking => result == Initial(build, result.updatedAt).(error := Some("check_interrupted"))
        case Downloading =>
          if Resumable(state) then result == Recovered(state, after, build, result.updatedAt) else Fails(state, result)
        case _ => result == state
    }

    predicate Fails(state: State, result: State) {
      && state.phase in {Applying, Downloading} && result.error.Some?
      && result == Failure(state, result.error.value, result.updatedAt)
    }

    /** `reconcileInstalledVersion`; `None` when it throws.  `complete` says that no file that should have
        been removed was locked or unreadable. */
    method ReconcileInstalledVersion() returns (result: Option<State>, complete: bool)
      modifies this`stored, this`files, this`trace, this`faulted
      // what becomes of every state: without a fault, only this
      ensures old(faulted) || result.None? || !complete ==> faulted
      ensures result.Some? && old(stored).Some? ==>
                || Resolves(old(stored).value, old(files), files, result.value)
                || (faulted && Fails(old(stored).value, result.value))
      ensures old(AllConsistent()) ==> AllConsistent()
      ensures result.Some? ==> Settled(result.value, build)
      // once it has succeeded, every operation keeps the promise; when it fails, the state is the one before
      ensures old(AllConsistent()) && result.Some? ==> OffersNewer()
      ensures result.None? ==> stored == old(stored)
      ensures result.Some? ==> stored == result || (stored.None? && exists now :: result.value == Initial(build, now))
      ensures result.Some? && old(stored).None? ==> stored.None?
      ensures old(AllConsistent()) && result.Some? && complete ==>
                Tidy(files, Preserved(result.value, build), build.machine)
      // another distribution, or the target booted: start afresh
      ensures result.Some? && old(stored).Some? && StartsAfresh(old(stored).value) ==>
                result.value == Initial(build, result.value.updatedAt)
      // the old version booted and the file is intact: staged again, unless reading the file or writing fails
      ensures result.Some? && old(stored).Some? && old(stored).value.phase == Applying
              && Belongs(old(stored).value, build) && !StartsAfresh(old(stored).value)
              && CarriesFile(old(stored).value, old(files), build.machine) ==>
                || result.value == old(stored).value.(error := Some("apply_incomplete"), phase := Staged,
                                                      updatedAt := result.value.updatedAt)
                || result.value == Failure(old(stored).value, "apply_incomplete", result.value.updatedAt)
      ensures result.Some? && result.value.phase == Staged && old(stored).Some? && old(stored).value.phase == Applying ==>
                CarriesUpdateFile(result.value, files)
      // a second run changes nothing
      ensures result.Some? && old(stored).Some? && Settled(old(stored).value, build) ==>
                && result == old(stored) && stored == old(stored)
                && (Tidy(old(files), Preserved(old(stored).value, build), build.machine) ==> files == old(files))
      ensures SaysApplying() ==> old(SaysApplying())
    {
      var read := Read();
      if read.None? {
        return None, false;
      }
      var state := read.value;
      var tidied := Cleanup(Preserved(state, build));
      if Tidy(old(files), Preserved(state, build), build.machine) {
        TidyStays(old(files), files, Preserved(state, build), build.machine);
      }
      ghost var cleaned := files;
      result, complete := Resolve(state);
      complete := complete && tidied;
      if complete && result.Some? && Preserved(state, build) <= Preserved(result.value, build) {
        TidyShrinks(cleaned, files, Preserved(state, build), Preserved(result.value, build), build.machine);
      }
    }

    predicate CarriesUpdateFile(state: State, files: map<string, Content>) {
      && state.artifact.Some? && state.stagedPath.Some?
      && FileMatches(files, state.stagedPath.value, state.artifact.value, build.machine.hash)
    }
  }

  lemma TidyStays(before: map<string, Content>, after: map<string, Content>, preserved: set<string>, machine: Machine)
    requires Tidy(before, preserved, machine) && Shrunk(before, after, preserved, machine)
    ensures after == before
  {
    assert after.Keys == before.Keys;
  }

  lemma TidyShrinks(before: map<string, Content>, after: map<string, Content>, less: set<string>, more: set<string>, machine: Machine)
    requires Tidy(before, less, machine) && less <= more
    requires forall path :: path in after ==> path in before
    ensures Tidy(after, more, machine)
  {
  }

  // ---- how far the promise of a state reaches

  /** A cancelled check writes the state it found back under the version of the running build.  That keeps the
      promise exactly when the claimed update is still newer. */
  lemma CancelledCheckKeepsPromise(state: State, files: map<string, Content>, build: Build, now: int)
    requires Coherent(state, files, build.machine)
    ensures Coherent(CancelledState(state, build, now), files, build.machine) <==> StillNewer(state, build)
  {
  }

  /** So does a download, of an available update. */
  lemma DownloadKeepsPromise(state: State, files: map<string, Content>, build: Build, now: int)
    requires Coherent(state, files, build.machine) && state.phase == Available
    ensures Coherent(DownloadingState(state, build, now), files, build.machine) <==> StillNewer(state, build)
  {
  }

  /** And so does preparing to apply a staged one. */
  lemma ApplyKeepsPromise(state: State, files: map<string, Content>, build: Build, now: int)
    requires Coherent(state, files, build.machine) && state.phase == Staged
    ensures Coherent(ApplyingState(state, build, now), files, build.machine) <==> StillNewer(state, build)
  {
  }

  // ---- a state that another version left

  /** What the state file may hold: reading and writing refuse anything else (`assertStoredState` with
      `parseUpdateArtifact`). */
  predicate Storable(state: State) {
    && state.architecture in {"x64", "arm64"} && state.channel in {"stable", "beta"}
    && (state.artifact.Some? ==>
          var artifact := state.artifact.value;
          && artifact.platform in {"win32", "linux"} && artifact.architecture in {"x64", "arm64"}
          && artifact.sizeBytes > 0 && Payload.IsDigest(artifact.sha256))
  }

  /** A Linux machine on which version 1.0.0 has found, and staged, version 2.0.0. */
  const DIGEST: string := seq(64, i => 'a')
  const MACHINE := Machine("linux", "/stage", (content: Content) => DIGEST, (name: string) => true)
  const INSTALLER := StagePath(MACHINE, "2.0.0", "x64")
  const ARTIFACT := Versions.Artifact("x64", "linux", DIGEST, 1, "https://updates.example/2.0.0")
  const FOUND := State("x64", Some(ARTIFACT), "stable", "1.0.0", None, Available, 0, None, Some("2.0.0"), 1, 0)
  const READY := FOUND.(phase := Staged, stagedPath := Some(INSTALLER), progressBytes := 1)
  const ON_DISK: map<string, Content> := map[INSTALLER := [0]]

  /** Version 2.0.0, installed by other means, on that machine. */
  const BOOTED := Build(MACHINE, "x64", "stable", "2.0.0", 1000, (url: string) => true)

  lemma TargetOrder()
    ensures Newer("2.0.0", "1.0.0") && !Newer("2.0.0", "2.0.0")
  {
    Versions.PlainOrder('2', '1');
    assert Versions.Plain('2') == "2.0.0" && Versions.Plain('1') == "1.0.0";
    Versions.NeverNewerThanItself("2.0.0");
  }

  lemma LeftStorable()
    ensures Storable(FOUND) && Storable(READY)
  {
    assert Payload.IsDigest(DIGEST);
  }

  /** What version 1.0.0 left keeps its promise. */
  lemma LeftCoherent()
    ensures Coherent(FOUND, map[], MACHINE) && Coherent(READY, ON_DISK, MACHINE)
  {
    TargetOrder();
    assert FileMatches(ON_DISK, INSTALLER, ARTIFACT, MACHINE.hash);
  }

  /** Yet it is not newer than the version that boots. */
  lemma LeftNotNewer()
    ensures !StillNewer(FOUND, BOOTED) && !StillNewer(READY, BOOTED)
  {
    TargetOrder();
  }

  /** When version 2.0.0 boots on what version 1.0.0 left, which keeps its promise, and its reconciliation fails to
      write, a cancelled check, a download and an apply each persist a state whose target is not newer. */
  lemma TargetBooted(now: int)
    ensures Storable(FOUND) && Storable(READY)
    ensures Coherent(FOUND, map[], MACHINE) && Coherent(READY, ON_DISK, MACHINE)
    ensures !Coherent(CancelledState(FOUND, BOOTED, now), map[], MACHINE)
    ensures !Coherent(DownloadingState(FOUND, BOOTED, now), map[], MACHINE)
    ensures !Coherent(ApplyingState(READY, BOOTED, now), ON_DISK, MACHINE)
  {
    LeftStorable();
    LeftCoherent();
    LeftNotNewer();
    CancelledCheckKeepsPromise(FOUND, map[], BOOTED, now);
    DownloadKeepsPromise(FOUND, map[], BOOTED, now);
    ApplyKeepsPromise(READY, ON_DISK, BOOTED, now);
  }

  // ---- every run

  /** Every run: starts of any build of the machine on the disk of any crash point, each beginning with a
      reconciliation that may fail, then checks, downloads, applies and launch failures in any order.  A cancelled
      check, a download and an apply are done only while the claimed update is still newer: by the contracts of these
      methods, exactly then they keep the promise of the disk.  At no point of the run is it broken. */
  method AnyRun(machine: Machine, rounds: nat) returns (manager: UpdateManager)
    ensures fresh(manager) && manager.AllConsistent()
  {
    var first: Build := *;
    var leftovers: map<string, Content> := *;
    manager := new UpdateManager(first.(machine := machine), None, leftovers);
    for round := 0 to rounds
      invariant fresh(manager) && manager.build.machine == machine && manager.AllConsistent()
    {
      var action: nat, crash: nat, build: Build, response: Response, sent: Transmission, code: string := *, *, *, *, *, *;
      if action == 0 && crash < |manager.trace| {
        var disk := manager.trace[crash];
        manager := new UpdateManager(build.(machine := machine), disk.stored, disk.files);
        var state, complete := manager.ReconcileInstalledVersion();
      } else if action == 1 && (response.Aborted? ==> manager.OffersNewer()) {
        var checked := manager.CheckForUpdate(response);
      } else if action == 2 && manager.OffersNewer() {
        var downloaded := manager.DownloadAvailableUpdate(sent);
      } else if action == 3 && manager.OffersNewer() {
        var handoff := manager.PrepareApply();
      } else {
        var recorded := manager.RecordApplyLaunchFailure(code);
      }
    }
  }

  /** A start whose reconciliation succeeds needs no guard: whatever is done after it, for as long as the build runs,
      the disk keeps its promise. */
  method AfterReconciliation(manager: UpdateManager, rounds: nat) returns (reconciled: bool)
    requires manager.AllConsistent()
    modifies manager
    ensures reconciled ==> manager.AllConsistent() && manager.OffersNewer()
  {
    var state, complete := manager.ReconcileInstalledVersion();
    reconciled := state.Some?;
    if !reconciled {
      return;
    }
    for round := 0 to rounds
      invariant manager.AllConsistent() && manager.OffersNewer()
    {
      var action: nat, response: Response, sent: Transmission, code: string := *, *, *, *;
      if action == 1 {
        var checked := manager.CheckForUpdate(response);
      } else if action == 2 {
        var downloaded := manager.DownloadAvailableUpdate(sent);
      } else if action == 3 {
        var handoff := manager.PrepareApply();
      } else {
        var recorded := manager.RecordApplyLaunchFailure(code);
      }
    }
  }

  /** Running reconciliation twice, nothing being locked the first time, leaves the disk as the first run did. */
  method ReconcileTwice(manager: UpdateManager)
    returns (first: Option<State>, second: Option<State>, complete: bool, between: map<string, Content>)
    modifies manager
    ensures old(manager.AllConsistent()) ==> manager.AllConsistent()
    ensures first.Some? && second.Some? && manager.stored.Some? ==> first == second == manager.stored
    ensures old(manager.AllConsistent()) && first.Some? && second.Some? && manager.stored.Some? && complete ==> manager.files == between
  {
    first, complete := manager.ReconcileInstalledVersion();
    between := manager.files;
    var again: bool;
    second, again := manager.ReconcileInstalledVersion();
  }
}
