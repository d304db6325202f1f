/** The Linux update transaction (applyLinuxUpdate in packages/update/src/linuxApplyWorker.ts).

    A worker swaps the install directory for an extracted payload and rolls back when the new version
    does not become healthy.  Every external step may fail (`*`), and `trace` records the disk after
    every step, the half-finished ones included: a crash leaves the disk as one element of it. */
module LinuxApply {
  import opened Wrappers
  import Payload

  datatype Place = InstallRoot | BackupRoot | FailedRoot | ExtractionRoot

  /** A directory tree; `inode` tells two trees with equal contents apart. */
  datatype Tree = Tree(inode: nat, entries: seq<Payload.Entry>)

  datatype Disk = Disk(
    dirs: map<Place, Tree>, unit: Option<Content>, unitTemporary: Option<Content>, artifact: Option<Content>)

  /** What the service manager has loaded, and which payload and unit the service was last started with. */
  datatype Service = Service(loadedUnit: Option<Content>, running: Option<(nat, Option<Content>)>)

  /** `quiet`: the service does not run, unless stopping it has failed. */
  datatype Shot = Shot(disk: Disk, accepted: bool, quiet: bool)

  datatype Options = Options(
    target: Payload.Target,
    sizeBytes: nat,
    sha256: string,
    sha: Content -> string,
    parse: Content -> Option<Payload.Manifest>,
    /** the marker and owner checks of verifyInstallRoot */
    recognized: seq<Payload.Entry> -> bool)

  /** `Refused`: an error before the transaction began.  `Failed`: an error with every rollback step done.
      `RollbackFailed`: an error while rolling back. */
  datatype Outcome = Updated | Refused | Failed | RollbackFailed

  datatype Command = Stop | DaemonReload | Restart

  const HEALTH_CONFIRMATION_COUNT := 3

  function UnitIn(entries: seq<Payload.Entry>): Option<Content> {
    var node := Payload.At(Payload.Dir(entries), ["systemd", "deskcue-host.service"]);
    if node.Some? && node.value.File? then Some(node.value.content) else None
  }

  predicate ArtifactIntact(disk: Disk, options: Options) {
    && disk.artifact.Some?
    && |disk.artifact.value| == options.sizeBytes
    && options.sha(disk.artifact.value) == options.sha256
  }

  predicate Sits(disk: Disk, place: Place, tree: Tree) {
    place in disk.dirs && disk.dirs[place] == tree
  }

  /** A rollback follows a failed step, or a payload without a unit, and fails for another, or for want of the old unit. */
  predicate RollbackFails(faults: int, installed: Tree, archive: seq<Payload.Entry>) {
    faults >= 2 || (faults == 1 && UnitIn(archive).None?) || UnitIn(installed.entries).None?
  }

  /** The service runs this payload with the unit it has loaded. */
  predicate Runs(service: Service, tree: Tree) {
    service.running == Some((tree.inode, service.loadedUnit))
  }

  /** The safety condition of every crash point.  Until the new payload is accepted the old one sits
      complete at exactly one of the install and the backup root; from then on the new one sits complete
      at the install root.  The other two roots never hold the old payload,
      and the new one is not moved out under a running service. */
  ghost predicate Safe(shot: Shot, installed: Tree, inode: nat, archive: seq<Payload.Entry>) {
    var disk := shot.disk;
    && (!shot.accepted ==> (Sits(disk, InstallRoot, installed) <==> !Sits(disk, BackupRoot, installed)))
    && (shot.accepted ==> Sits(disk, InstallRoot, Tree(inode, archive)))
    && (FailedRoot in disk.dirs ==> disk.dirs[FailedRoot].inode != installed.inode)
    && (FailedRoot in disk.dirs && InstallRoot !in disk.dirs ==> shot.quiet)
    && (ExtractionRoot in disk.dirs ==> disk.dirs[ExtractionRoot].inode != installed.inode)
  }

  /** `after` differs from `before` only in which entries are left below `place`. */
  ghost predicate PartlyRemoved(before: Disk, after: Disk, place: Place) {
    && place in before.dirs && place in after.dirs
    && after == before.(dirs := before.dirs[place := before.dirs[place].(entries := after.dirs[place].entries)])
  }

  ghost predicate SamePlace(before: Disk, after: Disk, place: Place) {
    (place in before.dirs <==> place in after.dirs) && (place in before.dirs ==> after.dirs[place] == before.dirs[place])
  }

  lemma CleanedSafe(before: Shot, after: Shot, installed: Tree, inode: nat, archive: seq<Payload.Entry>)
    requires Safe(before, installed, inode, archive) && after.accepted == before.accepted && after.quiet == before.quiet
    requires PartlyRemoved(before.disk, after.disk, ExtractionRoot)
             || after.disk == before.disk || after.disk == before.disk.(dirs := before.disk.dirs - {ExtractionRoot})
    ensures Safe(after, installed, inode, archive)
  {
  }

  lemma AcceptedStaysSafe(before: Shot, after: Shot, installed: Tree, inode: nat, archive: seq<Payload.Entry>)
    requires Safe(before, installed, inode, archive) && before.accepted && after.accepted && after.quiet == before.quiet
    requires PartlyRemoved(before.disk, after.disk, BackupRoot)
             || after.disk == before.disk || after.disk == before.disk.(dirs := before.disk.dirs - {BackupRoot})
    ensures Safe(after, installed, inode, archive)
  {
  }

  ghost predicate ConfirmedAt(polls: seq<bool>, end: nat) {
    HEALTH_CONFIRMATION_COUNT <= end <= |polls| && polls[end - 3] && polls[end - 2] && polls[end - 1]
  }

  /** `waitForHealthyInstall` over the results of the polls made before the deadline: three consecutive
      healthy answers are needed, and the third one ends the wait. */
  method WaitForHealthy(polls: seq<bool>) returns (healthy: bool)
    ensures healthy <==> exists end :: ConfirmedAt(polls, end)
  {
    var confirmations := 0;
    for i := 0 to |polls|
      invariant 0 <= confirmations < HEALTH_CONFIRMATION_COUNT && confirmations <= i
      invariant forall j :: i - confirmations <= j < i ==> polls[j]
      invariant confirmations < i ==> !polls[i - confirmations - 1]
      invariant forall end: nat :: end <= i ==> !ConfirmedAt(polls, end)
    {
      if polls[i] {
        confirmations := confirmations + 1;
        if confirmations >= HEALTH_CONFIRMATION_COUNT {
          assert ConfirmedAt(polls, i + 1);
          return true;
        }
      } else {
        confirmations := 0;
      }
    }
    return false;
  }

  class UpdateWorker {
    var disk: Disk
    var service: Service
    ghost var accepted: bool
    /** how many external steps have failed */
    ghost var faults: nat
    /** a removal of the temporary unit has failed, which nobody minds */
    ghost var littered: bool
    /** the host process has exited */
    ghost var hostGone: bool
    /** the service that answered the health polls */
    ghost var confirmed: Option<Service>
    /** a restart of the service has failed */
    ghost var restartFailed: bool
    /** a stop of it has */
    ghost var stopFailed: bool
    ghost var trace: seq<Shot>

    constructor (disk: Disk, service: Service)
      ensures this.disk == disk && this.service == service && !accepted && faults == 0 && trace == []
      ensures !restartFailed && !stopFailed && !littered && !hostGone && confirmed.None?
    {
      this.disk := disk;
      this.service := service;
      accepted, faults, restartFailed, stopFailed, trace := false, 0, false, false, [];
      littered, hostGone, confirmed := false, false, None;
    }

    ghost function Now(): Shot
      reads this
    {
      Shot(disk, accepted, service.running.None? || stopFailed)
    }

    ghost predicate AllSafe(installed: Tree, inode: nat, archive: seq<Payload.Entry>)
      reads this
    {
      && |trace| > 0 && trace[|trace| - 1] == Now()
      && forall i :: 0 <= i < |trace| ==> Safe(trace[i], installed, inode, archive)
    }

    ghost method Record()
      modifies this`trace
      ensures trace == old(trace) + [Now()]
    {
      trace := trace + [Now()];
    }

    // ---- external steps

    /** `rename` of a directory: atomic, or without effect. */
    method Rename(from: Place, to: Place) returns (ok: bool)
      modifies this
      ensures service == old(service) && accepted == old(accepted)
      ensures restartFailed == old(restartFailed) && stopFailed == old(stopFailed)
      ensures ok ==> from in old(disk.dirs) && to !in old(disk.dirs)
                     && disk == old(disk).(dirs := (old(disk.dirs) - {from})[to := old(disk.dirs)[from]])
      ensures !ok ==> disk == old(disk) && (faults > old(faults) || from !in disk.dirs || to in disk.dirs)
      ensures faults >= old(faults) && (old(hostGone) ==> hostGone)
      ensures trace == old(trace) + [Now()]
    {
      var fault: bool := *;
      ok := !fault && from in disk.dirs && to !in disk.dirs;
      if ok {
        disk := disk.(dirs := (disk.dirs - {from})[to := disk.dirs[from]]);
      }
      faults := faults + if fault then 1 else 0;
      Record();
    }

    /** `rm(place, { force, recursive })`: entries go one by one, and a failure leaves a partial tree. */
    method RemoveTree(place: Place) returns (ok: bool)
      modifies this
      ensures service == old(service) && accepted == old(accepted) && restartFailed == old(restartFailed) && stopFailed == old(stopFailed)
      ensures confirmed == old(confirmed) && littered == old(littered)
      ensures ok ==> disk == old(disk).(dirs := old(disk.dirs) - {place})
      ensures !ok ==> faults > old(faults)
      ensures !ok && place !in old(disk.dirs) ==> disk == old(disk)
      ensures !ok && place in old(disk.dirs) ==> PartlyRemoved(old(disk), disk, place)
      ensures faults >= old(faults) && (old(hostGone) ==> hostGone)
      ensures |trace| >= |old(trace)| && trace[..|old(trace)|] == old(trace)
      ensures forall i :: |old(trace)| <= i < |trace| ==>
                trace[i].accepted == accepted && trace[i].quiet == Now().quiet && (trace[i].disk == disk || PartlyRemoved(old(disk), trace[i].disk, place))
      ensures |trace| > 0 && trace[|trace| - 1] == Now()
    {
      var fault: bool := *;
      faults := faults + if fault then 1 else 0;
      ok := !fault;
      if place in disk.dirs {
        var left: seq<Payload.Entry> := *;
        disk := disk.(dirs := disk.dirs[place := disk.dirs[place].(entries := left)]);
        assert PartlyRemoved(old(disk), disk, place);
        Record();
        if !fault {
          disk := disk.(dirs := disk.dirs - {place});
        }
      }
      Record();
      assert ok && place !in old(disk.dirs) ==> disk.dirs == old(disk.dirs) - {place};
      assert ok && place in old(disk.dirs) ==> disk.dirs == old(disk.dirs) - {place};
    }

    /** `systemctl --user`; a command that fails may have taken effect or not. */
    method Systemctl(command: Command) returns (ok: bool)
      modifies this
      ensures disk == old(disk) && accepted == old(accepted)
      ensures !ok ==> faults > old(faults)
      ensures restartFailed == (old(restartFailed) || (!ok && command == Restart))
      ensures stopFailed == (old(stopFailed) || (!ok && command == Stop))
      ensures faults >= old(faults) && (old(hostGone) ==> hostGone)
      ensures ok && command == Stop ==> service == old(service).(running := None)
      ensures ok && command == DaemonReload ==> service == old(service).(loadedUnit := disk.unit)
      ensures ok && command == Restart ==> service == old(service).(running :=
                if InstallRoot in disk.dirs then Some((disk.dirs[InstallRoot].inode, old(service).loadedUnit)) else None)
      ensures trace == old(trace) + [Now()]
    {
      var fault: bool := *;
      ok := !fault;
      faults := faults + if fault then 1 else 0;
      restartFailed := restartFailed || (fault && command == Restart);
      stopFailed := stopFailed || (fault && command == Stop);
      if fault {
        service := *;
      } else {
        match command {
          case Stop => service := service.(running := None);
          case DaemonReload => service := service.(loadedUnit := disk.unit);
          case Restart =>
            service := service.(running :=
              if InstallRoot in disk.dirs then Some((disk.dirs[InstallRoot].inode, service.loadedUnit)) else None);
        }
      }
      Record();
    }

    /** `replaceUserUnit`: write a temporary file, rename it over the unit, always clean up. */
    method ReplaceUnit(installed: Tree, inode: nat, archive: seq<Payload.Entry>) returns (ok: bool)
      requires AllSafe(installed, inode, archive)
      modifies this
      ensures AllSafe(installed, inode, archive)
      ensures service == old(service) && accepted == old(accepted)
      ensures disk.dirs == old(disk.dirs) && disk.artifact == old(disk.artifact)
      ensures ok ==> InstallRoot in disk.dirs && disk.unit == UnitIn(disk.dirs[InstallRoot].entries) && disk.unit.Some?
      ensures ok ==> disk.unitTemporary.None? || littered
      ensures !ok ==> disk.unit == old(disk.unit)
      ensures !ok ==> faults > old(faults) || InstallRoot !in disk.dirs || UnitIn(disk.dirs[InstallRoot].entries).None?
      ensures faults >= old(faults) && (old(hostGone) ==> hostGone)
    {
      if InstallRoot !in disk.dirs || UnitIn(disk.dirs[InstallRoot].entries).None? {
        return false;
      }
      ok := WriteUnit(installed, inode, archive, UnitIn(disk.dirs[InstallRoot].entries));
    }

    /** The packaged unit reaches its place by way of a temporary file, whole or not at all. */
    method WriteUnit(installed: Tree, inode: nat, archive: seq<Payload.Entry>, source: Option<Content>) returns (ok: bool)
      requires AllSafe(installed, inode, archive)
      modifies this
      ensures AllSafe(installed, inode, archive)
      ensures service == old(service) && accepted == old(accepted)
      ensures disk.dirs == old(disk.dirs) && disk.artifact == old(disk.artifact)
      ensures disk.unit == if ok then source else old(disk.unit)
      ensures !ok ==> faults > old(faults)
      ensures ok ==> disk.unitTemporary.None? || littered
      ensures faults >= old(faults) && (old(hostGone) ==> hostGone)
    {
      var fault: bool := *;
      if fault {
        faults := faults + 1;
        return false;
      }
      disk := disk.(unitTemporary := None);
      Record();
      var written: Option<Content> := *;
      disk := disk.(unitTemporary := written);
      Record();
      fault := *;
      ok := !fault;
      if fault {
        faults := faults + 1;
      } else {
        disk := disk.(unitTemporary := source);
        Record();
        ok := MoveUnit(installed, inode, archive);
      }
      RemoveUnitTemporary(installed, inode, archive);
    }

    /** `rename` of the temporary unit over the unit. */
    method MoveUnit(installed: Tree, inode: nat, archive: seq<Payload.Entry>) returns (ok: bool)
      requires AllSafe(installed, inode, archive)
      modifies this
      ensures AllSafe(installed, inode, archive)
      ensures service == old(service) && accepted == old(accepted)
      ensures disk == if ok then old(disk).(unit := old(disk.unitTemporary), unitTemporary := None) else old(disk)
      ensures !ok ==> faults > old(faults)
      ensures faults >= old(faults) && (old(hostGone) ==> hostGone)
    {
      var fault: bool := *;
      ok := !fault;
      if fault {
        faults := faults + 1;
      } else {
        disk := disk.(unit := disk.unitTemporary, unitTemporary := None);
        Record();
      }
    }

    /** `rm(unitTemporaryPath, { force: true }).catch(...)`. */
    method RemoveUnitTemporary(installed: Tree, inode: nat, archive: seq<Payload.Entry>)
      requires AllSafe(installed, inode, archive)
      modifies this
      ensures AllSafe(installed, inode, archive)
      ensures service == old(service) && accepted == old(accepted) && faults == old(faults) && hostGone == old(hostGone)
      ensures restartFailed == old(restartFailed) && stopFailed == old(stopFailed) && confirmed == old(confirmed)
      ensures (old(littered) ==> littered) && (disk.unitTemporary.None? || littered)
      ensures disk == old(disk) || disk == old(disk).(unitTemporary := None)
    {
      var fault: bool := *;
      littered := littered || fault;
      if !fault {
        disk := disk.(unitTemporary := None);
        Record();
      }
    }

    /** `waitForHealthy`, with the poll answers chosen by the environment. */
    method Healthy() returns (healthy: bool)
      modifies this`faults, this`confirmed
      ensures healthy ==> confirmed == Some(service)
      ensures !healthy ==> faults > old(faults)
      ensures faults >= old(faults) && (old(hostGone) ==> hostGone)
    {
      var polls: seq<bool> := *;
      healthy := WaitForHealthy(polls);
      confirmed := if healthy then Some(service) else confirmed;
      faults := faults + if healthy then 0 else 1;
    }

    // ---- rollback

    /** The end of `restoreBackup`: the old payload is back in its place and must run again. */
    method Revive(installed: Tree, inode: nat, archive: seq<Payload.Entry>) returns (ok: bool)
      requires AllSafe(installed, inode, archive) && !accepted
      requires Sits(disk, InstallRoot, installed) && inode != installed.inode
      modifies this
      ensures AllSafe(installed, inode, archive) && accepted == old(accepted)
      ensures !ok ==> faults > old(faults) || UnitIn(installed.entries).None?
      ensures faults >= old(faults) && (old(hostGone) ==> hostGone)
      ensures disk.artifact == old(disk.artifact)
      ensures ok ==> disk.dirs == old(disk.dirs) - {FailedRoot}
      ensures ok ==> Sits(disk, InstallRoot, installed) && disk.unit == UnitIn(installed.entries)
      ensures ok ==> service == Service(disk.unit, Some((installed.inode, disk.unit))) && confirmed == Some(service)
    {
      ok := SwitchService(installed, inode, archive);
      if !ok {
        return false;
      }
      ok := RemoveTree(FailedRoot);
    }

    /** `restoreBackup`; false when one of its steps throws. */
    method RestoreBackup(installed: Tree, inode: nat, archive: seq<Payload.Entry>) returns (ok: bool)
      requires AllSafe(installed, inode, archive) && inode != installed.inode && !accepted
      requires Sits(disk, BackupRoot, installed) && FailedRoot !in disk.dirs
      requires InstallRoot in disk.dirs ==> disk.dirs[InstallRoot].inode == inode
      modifies this
      ensures AllSafe(installed, inode, archive) && accepted == old(accepted)
      ensures !ok ==> faults > old(faults) || UnitIn(installed.entries).None?
      ensures faults >= old(faults) && (old(hostGone) ==> hostGone)
      ensures disk.artifact == old(disk.artifact)
      ensures ok ==> disk.dirs.Keys == old(disk.dirs.Keys) - {BackupRoot} + {InstallRoot}
      ensures ok ==> Sits(disk, InstallRoot, installed) && disk.unit == UnitIn(installed.entries)
      ensures ok ==> service == Service(disk.unit, Some((installed.inode, disk.unit))) && confirmed == Some(service)
    {
      var stopped := Systemctl(Stop);
      if InstallRoot in disk.dirs {
        ok := Rename(InstallRoot, FailedRoot);
        if !ok {
          return false;
        }
      }
      ok := Rename(BackupRoot, InstallRoot);
      if !ok {
        return false;
      }
      ok := Revive(installed, inode, archive);
    }

    // ---- the transaction

    /** `extractArtifact`: unpack, then verify what arrived. */
    method Extract(options: Options, installed: Tree, inode: nat, archive: seq<Payload.Entry>) returns (ok: bool)
      requires AllSafe(installed, inode, archive) && inode != installed.inode && !accepted
      requires Payload.WellFormed(archive) && forall content :: Payload.IsDigest(options.sha(content))
      requires ExtractionRoot in disk.dirs && disk.dirs[ExtractionRoot].inode == inode
      modifies this
      ensures AllSafe(installed, inode, archive) && service == old(service) && accepted == old(accepted)
      ensures ExtractionRoot in disk.dirs && disk.dirs[ExtractionRoot].inode == inode
      ensures disk == old(disk).(dirs := old(disk.dirs)[ExtractionRoot := disk.dirs[ExtractionRoot]])
      ensures ok ==> Sits(disk, ExtractionRoot, Tree(inode, archive))
      ensures ok ==> Payload.Accepted(archive, options.target, options.sha, options.parse)
      ensures !ok ==> faults > old(faults) || !Payload.Accepted(archive, options.target, options.sha, options.parse)
      ensures faults >= old(faults) && (old(hostGone) ==> hostGone)
    {
      var partial: seq<Payload.Entry> := *;
      disk := disk.(dirs := disk.dirs[ExtractionRoot := Tree(inode, partial)]);
      Record();
      var fault: bool := *;
      if fault {
        faults := faults + 1;
        return false;
      }
      disk := disk.(dirs := disk.dirs[ExtractionRoot := Tree(inode, archive)]);
      Record();
      ok := Payload.Verify(archive, options.target, options.sha, options.parse);
    }

    /** The `finally` block. */
    method CleanUp(installed: Tree, inode: nat, archive: seq<Payload.Entry>)
      requires AllSafe(installed, inode, archive)
      modifies this
      ensures AllSafe(installed, inode, archive) && service == old(service) && accepted == old(accepted)
      ensures restartFailed == old(restartFailed) && stopFailed == old(stopFailed) && confirmed == old(confirmed)
      ensures disk.unit == old(disk.unit) && disk.artifact == old(disk.artifact)
      // nothing temporary is left, unless removing it failed
      ensures ExtractionRoot !in disk.dirs || faults > old(faults)
      ensures disk.unitTemporary.None? || littered
      ensures ExtractionRoot !in old(disk.dirs) ==> disk.dirs == old(disk.dirs)
      ensures forall place :: place != ExtractionRoot ==> SamePlace(old(disk), disk, place)
      ensures faults >= old(faults) && (old(hostGone) ==> hostGone)
    {
      label start:
      var removed := RemoveTree(ExtractionRoot);
      forall i | |old(trace)| <= i < |trace| ensures Safe(trace[i], installed, inode, archive) {
        CleanedSafe(old(Now()), trace[i], installed, inode, archive);
      }
      RemoveUnitTemporary(installed, inode, archive);
    }

    /** Point the service at the payload in the install root and wait until it is healthy: the new payload, or in
        `restoreBackup` the old one. */
    method SwitchService(installed: Tree, inode: nat, archive: seq<Payload.Entry>) returns (ok: bool)
      requires AllSafe(installed, inode, archive)
      modifies this
      ensures AllSafe(installed, inode, archive) && accepted == old(accepted)
      ensures disk.dirs == old(disk.dirs) && disk.artifact == old(disk.artifact)
      ensures ok ==> InstallRoot in disk.dirs && disk.unit.Some? && disk.unit == UnitIn(disk.dirs[InstallRoot].entries)
                     && service == Service(disk.unit, Some((disk.dirs[InstallRoot].inode, disk.unit)))
      ensures ok ==> confirmed == Some(service)
      ensures !ok ==> faults > old(faults) || InstallRoot !in disk.dirs || UnitIn(disk.dirs[InstallRoot].entries).None?
      ensures faults >= old(faults) && (old(hostGone) ==> hostGone)
    {
      ok := ReplaceUnit(installed, inode, archive);
      if !ok {
        return;
      }
      ok := Systemctl(DaemonReload);
      if !ok {
        return;
      }
      ok := Systemctl(Restart);
      if !ok {
        return;
      }
      ok := Healthy();
    }

    /** From the swapped directories to the end of the `try` block: accept the new payload or roll back. */
    method Activate(installed: Tree, inode: nat, archive: seq<Payload.Entry>) returns (outcome: Outcome)
      requires AllSafe(installed, inode, archive) && inode != installed.inode && !accepted
      requires disk.dirs == map[InstallRoot := Tree(inode, archive), BackupRoot := installed]
      requires disk.unit == UnitIn(installed.entries)
      modifies this
      ensures AllSafe(installed, inode, archive)
      ensures outcome in {Updated, Failed, RollbackFailed}
      ensures outcome == Updated ==> accepted && disk.dirs == map[InstallRoot := Tree(inode, archive)]
                                     && disk.artifact == None
      ensures accepted ==> Sits(disk, InstallRoot, Tree(inode, archive)) && disk.unit == UnitIn(archive)
                           && service == Service(disk.unit, Some((inode, disk.unit)))
      // whichever payload the service ends with has answered its health polls
      ensures accepted || outcome == Failed ==> confirmed == Some(service)
      ensures outcome == Failed && !accepted ==>
                && Sits(disk, InstallRoot, installed) && BackupRoot !in disk.dirs
                && disk.unit == old(disk.unit) && disk.artifact == old(disk.artifact)
                && (restartFailed || Runs(service, installed))
      ensures outcome == RollbackFailed ==> !accepted && RollbackFails(faults - old(faults), installed, archive)
      ensures outcome != Updated ==> faults > old(faults) || UnitIn(archive).None?
      ensures faults >= old(faults) && (old(hostGone) ==> hostGone)
    {
      var ok := SwitchService(installed, inode, archive);
      if !ok {
        ok := RestoreBackup(installed, inode, archive);
        return if ok then Failed else RollbackFailed;
      }
      accepted := true;
      Record();
      outcome := Commit(installed, inode, archive);
    }

    /** After the new payload is accepted: the backup and the artifact go. */
    method Commit(installed: Tree, inode: nat, archive: seq<Payload.Entry>) returns (outcome: Outcome)
      requires AllSafe(installed, inode, archive) && accepted
      requires disk.dirs == map[InstallRoot := Tree(inode, archive), BackupRoot := installed]
      modifies this
      ensures AllSafe(installed, inode, archive) && accepted && service == old(service) && disk.unit == old(disk.unit)
      ensures confirmed == old(confirmed)
      ensures outcome in {Updated, Failed} && Sits(disk, InstallRoot, Tree(inode, archive))
      ensures outcome == Updated ==> disk.dirs == map[InstallRoot := Tree(inode, archive)] && disk.artifact == None
      ensures outcome == Failed ==> faults > old(faults)
      ensures faults >= old(faults) && (old(hostGone) ==> hostGone)
    {
      var ok := RemoveTree(BackupRoot);
      forall i | |old(trace)| <= i < |trace| ensures Safe(trace[i], installed, inode, archive) {
        AcceptedStaysSafe(old(Now()), trace[i], installed, inode, archive);
      }
      if !ok {
        return Failed;
      }
      var fault: bool := *;
      if fault {
        faults := faults + 1;
        return Failed;
      }
      disk := disk.(artifact := None);
      Record();
      return Updated;
    }

    /** Everything before the first rename: verify the artifact, extract it, wait for the host to exit. */
    method Prepare(options: Options, installed: Tree, inode: nat, archive: seq<Payload.Entry>) returns (ok: bool)
      requires Payload.WellFormed(archive) && forall content :: Payload.IsDigest(options.sha(content))
      requires AllSafe(installed, inode, archive) && inode != installed.inode && !accepted
      requires disk.dirs == map[InstallRoot := installed, ExtractionRoot := Tree(inode, [])]
      modifies this
      ensures AllSafe(installed, inode, archive) && accepted == old(accepted)
      ensures disk.unit == old(disk.unit) && disk.artifact == old(disk.artifact)
      ensures Sits(disk, InstallRoot, installed) && disk.dirs.Keys == {InstallRoot, ExtractionRoot}
      ensures ok ==>
                && disk.dirs == map[InstallRoot := installed, ExtractionRoot := Tree(inode, archive)]
                && Payload.Accepted(archive, options.target, options.sha, options.parse)
                && ArtifactIntact(disk, options) && hostGone
      ensures !ok ==>
                || faults > old(faults) || !ArtifactIntact(disk, options)
                || !Payload.Accepted(archive, options.target, options.sha, options.parse)
      ensures faults >= old(faults) && (old(hostGone) ==> hostGone)
    {
      var fault: bool := *;
      faults := faults + if fault then 1 else 0;
      if fault || !ArtifactIntact(disk, options) {
        return false;
      }
      ok := Extract(options, installed, inode, archive);
      if ok {
        ok := WaitForHostExit();
      }
    }

    /** `waitForHostExit`; false when the deadline passes. */
    method WaitForHostExit() returns (gone: bool)
      modifies this`faults, this`hostGone
      ensures if gone then hostGone && faults == old(faults) else hostGone == old(hostGone) && faults > old(faults)
    {
      var polls: seq<bool> := *;
      for i := 0 to |polls|
        invariant hostGone == old(hostGone) && faults == old(faults)
      {
        if !polls[i] {
          hostGone := true;
          return true;
        }
      }
      faults := faults + 1;
      return false;
    }

    /** The body of the `try` block with its `catch`. */
    method Replace(options: Options, installed: Tree, inode: nat, archive: seq<Payload.Entry>) returns (outcome: Outcome)
      requires Payload.WellFormed(archive) && forall content :: Payload.IsDigest(options.sha(content))
      requires AllSafe(installed, inode, archive) && inode != installed.inode && !accepted
      requires disk.dirs == map[InstallRoot := installed, ExtractionRoot := Tree(inode, [])]
      requires disk.unit == UnitIn(installed.entries)
      modifies this
      ensures AllSafe(installed, inode, archive)
      ensures outcome in {Updated, Failed, RollbackFailed}
      ensures outcome == Updated ==> accepted && disk.dirs == map[InstallRoot := Tree(inode, archive)]
                                     && disk.artifact == None
      ensures accepted ==>
                && Sits(disk, InstallRoot, Tree(inode, archive))
                && Payload.Accepted(archive, options.target, options.sha, options.parse)
                && ArtifactIntact(old(disk), options)
                && disk.unit == UnitIn(archive)
                && service == Service(disk.unit, Some((inode, disk.unit))) && confirmed == Some(service) && hostGone
      ensures outcome == Failed && !accepted ==>
                && Sits(disk, InstallRoot, installed) && BackupRoot !in disk.dirs
                && disk.unit == old(disk.unit) && disk.artifact == old(disk.artifact)
                && (restartFailed || Runs(service, installed))
      ensures outcome == RollbackFailed ==> !accepted && RollbackFails(faults - old(faults), installed, archive)
      ensures outcome != Updated ==>
                || faults > old(faults) || !ArtifactIntact(old(disk), options) || UnitIn(archive).None?
                || !Payload.Accepted(archive, options.target, options.sha, options.parse)
    {
      var ok := Prepare(options, installed, inode, archive);
      if ok {
        ok := Rename(InstallRoot, BackupRoot);
      }
      if !ok {
        var restarted := Systemctl(Restart);
        return Failed;
      }
      var swapped := SwapIn(installed, inode, archive);
      if swapped.Some? {
        return swapped.value;
      }
      outcome := Activate(installed, inode, archive);
    }

    /** The new payload takes the place of the old one, which is back in it if that fails; `None` when it worked. */
    method SwapIn(installed: Tree, inode: nat, archive: seq<Payload.Entry>) returns (failure: Option<Outcome>)
      requires AllSafe(installed, inode, archive) && inode != installed.inode && !accepted
      requires disk.dirs == map[BackupRoot := installed, ExtractionRoot := Tree(inode, archive)]
      modifies this
      ensures AllSafe(installed, inode, archive) && !accepted
      ensures disk.unit == old(disk.unit) && disk.artifact == old(disk.artifact)
      ensures failure.None? ==> disk.dirs == map[InstallRoot := Tree(inode, archive), BackupRoot := installed]
      ensures failure.Some? ==> failure.value in {Failed, RollbackFailed} && faults > old(faults)
      ensures failure == Some(RollbackFailed) ==> faults >= old(faults) + 2
      ensures failure == Some(Failed) ==>
                Sits(disk, InstallRoot, installed) && BackupRoot !in disk.dirs && (restartFailed || Runs(service, installed))
      ensures faults >= old(faults) && (old(hostGone) ==> hostGone)
    {
      var ok := Rename(ExtractionRoot, InstallRoot);
      if ok {
        return None;
      }
      ok := Rename(BackupRoot, InstallRoot);
      if !ok {
        return Some(RollbackFailed);
      }
      var restarted := Systemctl(Restart);
      return Some(Failed);
    }

    /** `applyLinuxUpdate`.  `archive` is what the artifact unpacks to and `inode` the identity mkdtemp
        gives the new directory; the random operation id keeps the three working names unused. */
    method Apply(options: Options, inode: nat, archive: seq<Payload.Entry>) returns (outcome: Outcome)
      requires Payload.WellFormed(archive) && forall content :: Payload.IsDigest(options.sha(content))
      requires disk.dirs.Keys <= {InstallRoot}
      requires InstallRoot in disk.dirs ==> disk.dirs[InstallRoot].inode != inode
      requires !accepted && faults == 0 && !littered && !hostGone && confirmed.None?
      modifies this
      // nothing happens unless the installation is recognized and its unit is the packaged one
      ensures outcome == Refused ==> disk == old(disk) && service == old(service)
      ensures outcome == Refused ==>
                || faults > old(faults) || InstallRoot !in disk.dirs || !options.recognized(disk.dirs[InstallRoot].entries)
                || disk.unit.None? || UnitIn(disk.dirs[InstallRoot].entries) != disk.unit
      ensures outcome != Refused ==>
                && InstallRoot in old(disk.dirs) && options.recognized(old(disk.dirs)[InstallRoot].entries)
                && old(disk.unit).Some? && UnitIn(old(disk.dirs)[InstallRoot].entries) == old(disk.unit)
      // every crash point
      ensures outcome != Refused ==> AllSafe(old(disk.dirs)[InstallRoot], inode, archive)
      // the end
      ensures outcome == Updated ==> accepted && disk.dirs == map[InstallRoot := Tree(inode, archive)]
                                     && disk.artifact == None
      ensures accepted ==>
                && Sits(disk, InstallRoot, Tree(inode, archive))
                && Payload.Accepted(archive, options.target, options.sha, options.parse)
                && ArtifactIntact(old(disk), options)
                && disk.unit == UnitIn(archive)
                && service == Service(disk.unit, Some((inode, disk.unit))) && confirmed == Some(service) && hostGone
      ensures outcome == Failed && !accepted ==>
                && Sits(disk, InstallRoot, old(disk.dirs)[InstallRoot]) && BackupRoot !in disk.dirs
                && disk.unit == old(disk.unit) && disk.artifact == old(disk.artifact)
                && (restartFailed || Runs(service, old(disk.dirs)[InstallRoot]))
      // nothing temporary is left, unless removing it failed
      ensures outcome != Refused ==> (ExtractionRoot !in disk.dirs || faults > 0) && (disk.unitTemporary.None? || littered)
      // an update, and its rollback, fail only for a reason
      ensures outcome == RollbackFailed ==> !accepted && (faults >= 2 || (faults == 1 && UnitIn(archive).None?))
      ensures outcome !in {Updated, Refused} ==>
                || faults > old(faults) || !ArtifactIntact(old(disk), options) || UnitIn(archive).None?
                || !Payload.Accepted(archive, options.target, options.sha, options.parse)
    {
      if InstallRoot !in disk.dirs || !options.recognized(disk.dirs[InstallRoot].entries) {
        return Refused;
      }
      var installed := disk.dirs[InstallRoot];
      if disk.unit.None? || UnitIn(installed.entries) != disk.unit {
        return Refused;
      }
      var fault: bool := *;
      if fault {
        faults := faults + 1;
        return Refused;
      }
      disk := disk.(dirs := disk.dirs[ExtractionRoot := Tree(inode, [])]);
      trace := [Now()];
      outcome := Replace(options, installed, inode, archive);
      ghost var before := disk;
      CleanUp(installed, inode, archive);
      assert SamePlace(before, disk, InstallRoot) && SamePlace(before, disk, BackupRoot);
    }
  }
}
