/** `DeploymentOrchestrator::deploy`, run among any number of other deployments. */
module Deployment {
  import opened Text
  import opened Disk
  import opened Machine
  import opened Environment
  import opened Installer
  import Names
  import Story

  /** Where a deployment stopped. */
  datatype Stage =
    | NoController | BadBundle | NoSuchUser | RejectedQuadlet | BadArchive
    | LockStage | SocketStage | LoadStage | SnapshotStage | InstallStage
    | ReloadStage | RestartStage | UnhealthyStage

  /** What the error message says about the rollback. */
  datatype Note = NoRollback | RolledBackQuadlet(reloaded: bool, restarted: bool) | RollbackFailed

  datatype Error = Error(stage: Stage, note: Note)

  datatype Options = Options(
    hasController: bool, loadImageArchive: bool, validateSocket: bool, restartUnit: bool, dryRun: bool)

  datatype Bundle = Bundle(
    targetUid: nat, serviceName: string, hasArchive: bool, archivePathEmpty: bool, file: string, contents: string)

  datatype Report = Report(path: Path, unit: string, status: Option<UnitStatus>, dryRun: bool)

  /** What the user database, the staging directory, the socket and Podman answer, when asked. */
  datatype Answers = Answers(userKnown: bool, archiveOpens: bool, socketTrusted: bool, imageLoads: bool)

  predicate ArchiveWanted(b: Bundle, o: Options) {
    o.loadImageArchive && b.hasArchive
  }

  /** The checks before the archive is opened had nothing to object to. */
  predicate Eligible(c: Config, b: Bundle, o: Options, a: Answers, job: Job) {
    o.hasController && ValidBundle(b) && a.userKnown && Acceptable(c, job)
  }

  /** Everything a deployment asks for before it touches a Quadlet was there. */
  predicate Prepared(c: Config, b: Bundle, o: Options, a: Answers, job: Job) {
    && Eligible(c, b, o, a, job)
    && (ArchiveWanted(b, o) ==>
          a.archiveOpens && (!o.dryRun ==> (o.validateSocket ==> a.socketTrusted) && a.imageLoads))
  }

  /** The fault an early error blames is there, and nothing checked before it was at fault. */
  predicate Blames(c: Config, b: Bundle, o: Options, a: Answers, job: Job, stage: Stage) {
    match stage
    case NoController => !o.hasController
    case BadBundle => o.hasController && !ValidBundle(b)
    case NoSuchUser => o.hasController && ValidBundle(b) && !a.userKnown
    case RejectedQuadlet => o.hasController && ValidBundle(b) && a.userKnown && !Acceptable(c, job)
    case BadArchive => Eligible(c, b, o, a, job) && ArchiveWanted(b, o) && !a.archiveOpens
    case LockStage => Eligible(c, b, o, a, job) && (ArchiveWanted(b, o) ==> a.archiveOpens) && !o.dryRun
    case SocketStage =>
      && Eligible(c, b, o, a, job) && ArchiveWanted(b, o) && a.archiveOpens && !o.dryRun
      && o.validateSocket && !a.socketTrusted
    case LoadStage =>
      && Eligible(c, b, o, a, job) && ArchiveWanted(b, o) && a.archiveOpens && !o.dryRun
      && (o.validateSocket ==> a.socketTrusted) && !a.imageLoads
    case _ => Prepared(c, b, o, a, job) && !o.dryRun
  }

  /** `validate_deployment_bundle`. */
  predicate ValidBundle(b: Bundle) {
    && b.targetUid != 0
    && b.serviceName != ""
    && Names.ValidQuadletFileName(b.file)
    && Names.ServiceUnitName(b.file) == b.serviceName + Names.SERVICE_SUFFIX
    && !(b.hasArchive && b.archivePathEmpty)
  }

  /** The job is what a call with this bundle and these options is asked to do. */
  predicate JobOf(b: Bundle, o: Options, job: Job) {
    job.uid == b.targetUid && job.file == b.file && job.contents == b.contents && job.restart == o.restartUnit
  }

  /** Errors raised before the lock is held. */
  predicate BeforeLock(stage: Stage) {
    stage.NoController? || stage.BadBundle? || stage.NoSuchUser? || stage.RejectedQuadlet? || stage.BadArchive? || stage.LockStage?
  }

  /** Errors raised after the image is loaded. */
  predicate AfterLoad(stage: Stage) {
    stage.SnapshotStage? || stage.InstallStage? || stage.ReloadStage? || stage.RestartStage? || stage.UnhealthyStage?
  }

  /** `lock_deployment`. */
  method LockDeployment(w: Host, d: nat) returns (ok: bool)
    requires w.Valid() && d < |w.s.ds| && w.s.ds[d].phase.Idle? && Acceptable(w.c, w.s.ds[d].job)
    modifies w`s, w`run, w`interrupts, w`faults, w`taken
    ensures w.Valid() && d < |w.s.ds| && w.s.ds[d].job == old(w.s.ds[d].job)
    ensures w.faults == old(w.faults) + (if ok then 0 else 1) && w.taken == old(w.taken)
    ensures if ok then w.s.ds[d].phase.Holding? else w.s.ds[d].phase == Done(Untouched)
  {
    ok := w.OpenLockFile(d);
    if !ok {
      return;
    }
    while true
      invariant w.faults == old(w.faults) && w.taken == old(w.taken)
      invariant w.Valid() && d < |w.s.ds| && w.s.ds[d].job == old(w.s.ds[d].job) && w.s.ds[d].phase.Waiting?
      decreases w.interrupts
    {
      var r := w.Flock(d);
      match r {
        case Locked => return true;
        case LockFailed => return false;
        case LockInterrupted =>
      }
    }
  }

  /** What a completed rollback adds to the deeds of a call: the old state put back and synced, the reload as
      reported, and one restart, with the reported result, exactly if the reload was answered, the call had got as
      far as a restart, and there is a file to run. */
  ghost predicate RolledBackSo(note: Note, entry: Option<string>, again: bool, before: seq<Story.Deed>, deeds: seq<Story.Deed>) {
    FinishedSo(note, entry, again, before + [if entry.Some? then Story.Renamed else Story.Removed, Story.Synced], deeds)
  }

  ghost predicate FinishedSo(note: Note, entry: Option<string>, again: bool, undone: seq<Story.Deed>, deeds: seq<Story.Deed>) {
    note.RolledBackQuadlet? &&
    deeds == undone +
      if !note.reloaded then [Story.Refused]
      else if again && entry.Some? then [Story.Answered, Story.Restarted(note.restarted)]
      else [Story.Answered]
  }

  /** `restore_for_user`, with what it does to the path. */
  method PutBack(w: Host, d: nat, snapshot: Option<string>) returns (ok: bool)
    requires w.Valid() && d < |w.s.ds| && snapshot == w.s.ds[d].snapshot
    requires w.s.ds[d].phase == if snapshot.Some? then Opening(Restore, 0) else Removing
    modifies w`s, w`run, w`interrupts, w`faults, w`taken
    ensures w.Valid() && d < |w.s.ds|
    ensures ok ==> w.s.ds[d] == old(w.s.ds[d]).(phase := Reloading(Restore))
    ensures ok ==>
      w.Deeds(d) == old(w.Deeds(d)) + [if w.s.ds[d].entry.Some? then Story.Renamed else Story.Removed, Story.Synced]
    ensures !ok ==>
      && AtReturn(w.s, d) && w.s.ds[d] == old(w.s.ds[d]).(phase := w.s.ds[d].phase)
      && w.s.ds[d].phase.outcome.RestoreFailed?
    ensures if ok then w.faults == old(w.faults) else w.faults > old(w.faults) || w.taken >= old(w.taken) + 100
    ensures w.faults >= old(w.faults) && w.taken >= old(w.taken)
  {
    w.RestoreIsTold(d);
    ok := RestoreForUser(w, d, snapshot);
    if ok {
      w.UndoneIsTold(d);
    }
  }

  /** `rollback_error`: the original error, with what became of the restore added. */
  method RollbackError(w: Host, d: nat, snapshot: Option<string>, restartRestored: bool, stage: Stage) returns (e: Error)
    requires w.Valid() && d < |w.s.ds| && snapshot == w.s.ds[d].snapshot && restartRestored == w.s.ds[d].again
    requires w.s.ds[d].phase == if snapshot.Some? then Opening(Restore, 0) else Removing
    modifies w
    ensures w.Valid() && d < |w.s.ds| && e.stage == stage && !e.note.NoRollback?
    ensures w.s.ds[d] == old(w.s.ds[d]).(phase := w.s.ds[d].phase) && w.s.ds[d].phase.Done?
    ensures e.note.RolledBackQuadlet? <==> w.s.ds[d].phase == Done(RolledBack)
    ensures e.note.RollbackFailed? <==> w.s.ds[d].phase.outcome.RestoreFailed?
    ensures AtReturn(w.s, d)
    ensures e.note.RolledBackQuadlet? ==>
      RolledBackSo(e.note, w.s.ds[d].entry, restartRestored, old(w.Deeds(d)), w.Deeds(d))
    ensures e.note.RollbackFailed? ==> w.faults > old(w.faults) || w.taken >= old(w.taken) + 100
    ensures e.note.RolledBackQuadlet? && !e.note.reloaded ==> w.faults > old(w.faults)
    ensures w.faults >= old(w.faults) && w.taken >= old(w.taken) && w.sick >= old(w.sick)
  {
    w.SnapshotIsEntry(d);
    var restored := PutBack(w, d, snapshot);
    if !restored {
      return Error(stage, RollbackFailed);
    }
    var note := AfterRestore(w, d, snapshot, restartRestored);
    e := Error(stage, note);
  }

  lemma AndThen(deeds: seq<Story.Deed>, x: Story.Deed, y: Story.Deed)
    ensures deeds + [x] + [y] == deeds + [x, y]
  {
  }

  /** The reload and the restart of what was restored; their failures are only reported. */
  method AfterRestore(w: Host, d: nat, snapshot: Option<string>, restartRestored: bool) returns (note: Note)
    requires w.Valid() && d < |w.s.ds| && snapshot == w.s.ds[d].snapshot && restartRestored == w.s.ds[d].again
    requires w.s.ds[d].phase == Reloading(Restore)
    modifies w
    ensures w.Valid() && d < |w.s.ds| && note.RolledBackQuadlet?
    ensures w.s.ds[d] == old(w.s.ds[d]).(phase := Done(RolledBack)) && AtReturn(w.s, d)
    ensures FinishedSo(note, snapshot, restartRestored, old(w.Deeds(d)), w.Deeds(d))
    ensures !note.reloaded ==> w.faults > old(w.faults)
    ensures w.faults >= old(w.faults) && w.taken == old(w.taken) && w.sick >= old(w.sick)
  {
    var reloaded := w.DaemonReload(d);
    if !reloaded || !restartRestored || snapshot.None? {
      return RolledBackQuadlet(reloaded, false);
    }
    var r := w.RestartUnit(d);
    AndThen(old(w.Deeds(d)), Story.Answered, Story.Restarted(r.Some? && Healthy(r.value)));
    note := RolledBackQuadlet(true, r.Some? && Healthy(r.value));
  }

  /** The part of `deploy` after the lock and the image load: snapshot, install, reload, restart, or undo. */
  method Transact(w: Host, d: nat, unit: string) returns (r: Result<Report, Error>)
    requires w.Valid() && d < |w.s.ds| && w.s.ds[d].phase.Holding?
    modifies w
    ensures w.Valid() && d < |w.s.ds| && w.s.ds[d].phase.Done? && w.s.ds[d].job == old(w.s.ds[d].job)
    ensures w.s.ds[d].entry == old(w.s.ds[d].entry)
    ensures r.Ok? <==> w.s.ds[d].phase == Done(Committed)
    ensures r.Ok? ==> r.value.path == Target(w.s.ds[d].job) && r.value.unit == unit && !r.value.dryRun
    ensures r.Ok? && w.s.ds[d].job.restart ==> r.value.status.Some? && Healthy(r.value.status.value)
    ensures r.Err? ==> Explains(r.error, w.s.ds[d].phase) && AfterLoad(r.error.stage)
    ensures AtReturn(w.s, d)
    ensures w.faults >= old(w.faults) && w.taken >= old(w.taken) && w.sick >= old(w.sick)
    ensures r.Ok? ==> w.faults == old(w.faults)
    ensures r.Err? ==>
      HasCause(r.error.stage, Oversized(w.c, w.s.ds[d]), w.faults - old(w.faults), w.taken - old(w.taken), w.sick - old(w.sick))
    ensures Reported(r, w.s.ds[d], w.Deeds(d))
  {
    var taken, snapshot := SnapshotForUser(w, d);
    if !taken {
      w.NothingIsTold(d);
      return Err(Error(SnapshotStage, NoRollback));
    }
    var installed := AtomicWriteFile(w, d, w.s.ds[d].job.contents);
    if !installed {
      w.DeedsAreTold(d);
      return Err(Error(InstallStage, NoRollback));
    }
    r := Activate(w, d, unit, snapshot);
  }

  /** A failed reload or restart, rolled back; `before`, `names` and `sickBefore` are the counts when it
      began. */
  method Fail(w: Host, d: nat, snapshot: Option<string>, stage: Stage, ghost before: nat, ghost names: nat, ghost sickBefore: nat)
    returns (r: Result<Report, Error>)
    requires w.Valid() && d < |w.s.ds| && snapshot == w.s.ds[d].snapshot && w.s.ds[d].again == !stage.ReloadStage?
    requires w.s.ds[d].phase == if snapshot.Some? then Opening(Restore, 0) else Removing
    requires stage.ReloadStage? || (w.s.ds[d].job.restart && (stage.RestartStage? || stage.UnhealthyStage?))
    requires w.Deeds(d) == BeforeRollback(stage)
    requires w.faults >= before && w.taken >= names && w.sick >= sickBefore
    requires if stage.UnhealthyStage? then w.sick > sickBefore else w.faults > before
    modifies w
    ensures w.Valid() && d < |w.s.ds| && w.s.ds[d].phase.Done? && r.Err? && r.error.stage == stage
    ensures w.s.ds[d] == old(w.s.ds[d]).(phase := w.s.ds[d].phase) && w.s.ds[d].phase != Done(Committed)
    ensures Explains(r.error, w.s.ds[d].phase) && AtReturn(w.s, d)
    ensures w.faults >= before && w.taken >= names && w.sick >= sickBefore
    ensures HasCause(stage, Oversized(w.c, w.s.ds[d]), w.faults - before, w.taken - names, w.sick - sickBefore)
    ensures Reported(r, w.s.ds[d], w.Deeds(d))
  {
    var e := RollbackError(w, d, snapshot, !stage.ReloadStage?, stage);
    if e.note.RollbackFailed? {
      w.FailureIsTold(d);
    }
    r := Err(e);
  }

  /** The status query that follows when no restart was asked for; its failure is only reported. */
  method Status() returns (status: Option<UnitStatus>) {
    status := *;
  }

  /** The rest of `deploy`, once the new Quadlet is in place. */
  method Activate(w: Host, d: nat, unit: string, snapshot: Option<string>) returns (r: Result<Report, Error>)
    requires w.Valid() && d < |w.s.ds| && w.s.ds[d].phase == Reloading(Install) && snapshot == w.s.ds[d].snapshot
    modifies w
    ensures w.Valid() && d < |w.s.ds| && w.s.ds[d].phase.Done? && w.s.ds[d].job == old(w.s.ds[d].job)
    ensures w.s.ds[d].entry == old(w.s.ds[d].entry)
    ensures r.Ok? <==> w.s.ds[d].phase == Done(Committed)
    ensures r.Ok? ==> r.value.path == Target(w.s.ds[d].job) && r.value.unit == unit && !r.value.dryRun
    ensures r.Ok? && w.s.ds[d].job.restart ==> r.value.status.Some? && Healthy(r.value.status.value)
    ensures r.Err? ==> Explains(r.error, w.s.ds[d].phase) && AfterLoad(r.error.stage)
    ensures AtReturn(w.s, d)
    ensures w.faults >= old(w.faults) && w.taken >= old(w.taken) && w.sick >= old(w.sick)
    ensures r.Ok? ==> w.faults == old(w.faults)
    ensures r.Err? ==>
      HasCause(r.error.stage, Oversized(w.c, w.s.ds[d]), w.faults - old(w.faults), w.taken - old(w.taken), w.sick - old(w.sick))
    ensures Reported(r, w.s.ds[d], w.Deeds(d))
  {
    w.InstalledIsTold(d);
    var path := Target(w.s.ds[d].job);
    var reloaded := w.DaemonReload(d);
    if !reloaded {
      r := Fail(w, d, snapshot, ReloadStage, old(w.faults), old(w.taken), old(w.sick));
    } else if w.s.ds[d].job.restart {
      r := Restart(w, d, unit, snapshot);
    } else {
      var status := Status();
      r := Ok(Report(path, unit, status, false));
    }
  }

  /** The restart `deploy` was asked for, once the manager has reloaded. */
  method Restart(w: Host, d: nat, unit: string, snapshot: Option<string>) returns (r: Result<Report, Error>)
    requires w.Valid() && d < |w.s.ds| && w.s.ds[d].phase == Restarting(Install) && snapshot == w.s.ds[d].snapshot
    requires w.Deeds(d) == [Story.Renamed, Story.Synced, Story.Answered] && w.s.ds[d].job.restart
    modifies w
    ensures w.Valid() && d < |w.s.ds| && w.s.ds[d].phase.Done? && w.s.ds[d].job == old(w.s.ds[d].job)
    ensures w.s.ds[d].entry == old(w.s.ds[d].entry)
    ensures r.Ok? <==> w.s.ds[d].phase == Done(Committed)
    ensures r.Ok? ==> r.value.path == Target(w.s.ds[d].job) && r.value.unit == unit && !r.value.dryRun
    ensures r.Ok? ==> r.value.status.Some? && Healthy(r.value.status.value)
    ensures r.Err? ==> Explains(r.error, w.s.ds[d].phase) && AfterLoad(r.error.stage)
    ensures AtReturn(w.s, d)
    ensures w.faults >= old(w.faults) && w.taken >= old(w.taken) && w.sick >= old(w.sick)
    ensures r.Ok? ==> w.faults == old(w.faults)
    ensures r.Err? ==>
      HasCause(r.error.stage, Oversized(w.c, w.s.ds[d]), w.faults - old(w.faults), w.taken - old(w.taken), w.sick - old(w.sick))
    ensures Reported(r, w.s.ds[d], w.Deeds(d))
  {
    var path := Target(w.s.ds[d].job);
    var status := w.RestartUnit(d);
    if status.None? || !Healthy(status.value) {
      r := Fail(w, d, snapshot, if status.None? then RestartStage else UnhealthyStage, old(w.faults), old(w.taken), old(w.sick));
    } else {
      r := Ok(Report(path, unit, status, false));
    }
  }


  /** What a call that stopped at this stage had done before its rollback. */
  function BeforeRollback(stage: Stage): seq<Story.Deed> {
    if stage.ReloadStage? then [Story.Renamed, Story.Synced, Story.Refused]
    else [Story.Renamed, Story.Synced, Story.Answered, Story.Restarted(false)]
  }

  /** The deeds of a call that has returned: what its result reports, and no more. */
  ghost predicate Reported(r: Result<Report, Error>, x: Deployer, deeds: seq<Story.Deed>) {
    match r
    case Ok(_) => deeds == [Story.Renamed, Story.Synced, Story.Answered] + if x.job.restart then [Story.Restarted(true)] else []
    case Err(e) =>
      match e.note
      case RolledBackQuadlet(_, _) =>
        && (e.stage.ReloadStage? || (x.job.restart && (e.stage.RestartStage? || e.stage.UnhealthyStage?)))
        && RolledBackSo(e.note, x.entry, !e.stage.ReloadStage?, BeforeRollback(e.stage), deeds)
      case RollbackFailed => BeforeRollback(e.stage) <= deeds
      case NoRollback => deeds == [] || (e.stage.InstallStage? && deeds == [Story.Renamed])
  }

  /** Every failure has a cause: a call that failed, a file over the size limit, a hundred temporary names taken, or
      a unit that did not come up.  A signal is none, nor is a short transfer. */
  predicate HasCause(stage: Stage, oversized: bool, faults: nat, taken: nat, sick: nat) {
    match stage
    case LockStage => faults > 0
    case SnapshotStage => faults > 0 || oversized
    case InstallStage => faults > 0 || taken >= 100
    case ReloadStage => faults > 0
    case RestartStage => faults > 0
    case UnhealthyStage => sick > 0
    case _ => true
  }

  predicate Oversized(c: Config, x: Deployer) {
    x.entry.Some? && |x.entry.value| > c.maxBytes
  }

  /** Which outcomes an error message can stand for. */
  predicate Explains(e: Error, ph: Phase) {
    ph.Done? &&
    match e.note
    case RolledBackQuadlet(_, _) => ph.outcome.RolledBack?
    case RollbackFailed => ph.outcome.RestoreFailed?
    case NoRollback => ph.outcome.Untouched? || (ph.outcome.InstallUnsynced? && e.stage.InstallStage?)
  }

  /** The checks of `deploy` before the lock. */
  method Prepare(w: Host, d: nat, options: Options, bundle: Bundle, answers: Answers) returns (fault: Option<Stage>)
    requires w.Valid() && d < |w.s.ds| && w.s.ds[d].phase.Idle? && JobOf(bundle, options, w.s.ds[d].job)
    modifies w`s, w`run, w`interrupts, w`faults, w`taken
    ensures w.Valid() && d < |w.s.ds|
    ensures w.faults == old(w.faults) && w.taken == old(w.taken)
    ensures fault.Some? ==>
      && w.s.ds[d] == old(w.s.ds[d]).(phase := Done(Untouched))
      && BeforeLock(fault.value) && !fault.value.LockStage?
      && Blames(w.c, bundle, options, answers, w.s.ds[d].job, fault.value)
    ensures fault.None? ==>
      && w.s == old(w.s)
      && Eligible(w.c, bundle, options, answers, w.s.ds[d].job)
      && (ArchiveWanted(bundle, options) ==> answers.archiveOpens)
  {
    fault := None;
    if !options.hasController {
      fault := Some(NoController);
    } else if !ValidBundle(bundle) {
      fault := Some(BadBundle);
    } else if !answers.userKnown {   // resolve_uid
      fault := Some(NoSuchUser);
    } else if !Acceptable(w.c, w.s.ds[d].job) {   // expected_install
      fault := Some(RejectedQuadlet);
    } else if ArchiveWanted(bundle, options) && !answers.archiveOpens {   // open_staged_image_archive
      fault := Some(BadArchive);
    }
    if fault.Some? {
      w.Abandon(d);
    }
  }

  /** The image load, under the lock; once loaded, an image is never removed again. */
  method LoadImage(w: Host, d: nat, options: Options, bundle: Bundle, answers: Answers) returns (fault: Option<Stage>)
    requires w.Valid() && d < |w.s.ds| && w.s.ds[d].phase.Holding?
    modifies w`s, w`run, w`interrupts, w`faults, w`taken
    ensures w.Valid() && d < |w.s.ds|
    ensures w.faults == old(w.faults) && w.taken == old(w.taken)
    ensures fault.None? ==>
      && w.s == old(w.s)
      && (ArchiveWanted(bundle, options) ==> (options.validateSocket ==> answers.socketTrusted) && answers.imageLoads)
    ensures fault.Some? ==>
      && w.s.ds[d] == old(w.s.ds[d]).(phase := Done(Untouched)) && AtReturn(w.s, d)
      && ArchiveWanted(bundle, options)
      && ((fault == Some(SocketStage) && options.validateSocket && !answers.socketTrusted) ||
          (fault == Some(LoadStage) && (options.validateSocket ==> answers.socketTrusted) && !answers.imageLoads))
  {
    fault := None;
    if ArchiveWanted(bundle, options) {
      if options.validateSocket && !answers.socketTrusted {
        fault := Some(SocketStage);
      } else if !answers.imageLoads {
        fault := Some(LoadStage);
      }
    }
    if fault.Some? {
      w.Abandon(d);
    }
  }

  /** What an error raised under the lock says of the path. */
  ghost predicate TellsTheTruth(s: State, d: nat, e: Error) {
    d < |s.ds| && s.ds[d].phase.Done? &&
    var now, x := Read(s.fs, Target(s.ds[d].job)), s.ds[d];
    match e.note
    case RolledBackQuadlet(_, _) => Surely(s.fs, Target(x.job), x.entry)
    case RollbackFailed => now == x.entry || now == Some(x.job.contents)
    case NoRollback =>
      if x.phase == Done(InstallUnsynced) then e.stage.InstallStage? && now == Some(x.job.contents)
      else x.phase == Done(Untouched) && now == x.entry
  }

  lemma ExplainedIsTrue(s: State, d: nat, e: Error)
    requires AtReturn(s, d) && Explains(e, s.ds[d].phase)
    ensures TellsTheTruth(s, d, e)
  {
  }

  /** `deploy` from the lock on. */
  method UnderLock(w: Host, d: nat, options: Options, bundle: Bundle, answers: Answers, unit: string)
    returns (r: Result<Report, Error>)
    requires w.Valid() && d < |w.s.ds| && w.s.ds[d].phase.Holding? && JobOf(bundle, options, w.s.ds[d].job)
    requires Eligible(w.c, bundle, options, answers, w.s.ds[d].job) && !options.dryRun
    requires ArchiveWanted(bundle, options) ==> answers.archiveOpens
    modifies w
    ensures w.Valid() && d < |w.s.ds| && w.s.ds[d].job == old(w.s.ds[d].job) && AtReturn(w.s, d)
    ensures r.Ok? ==>
      && Prepared(w.c, bundle, options, answers, w.s.ds[d].job) && w.s.ds[d].phase == Done(Committed)
      && r.value.path == Target(w.s.ds[d].job) && r.value.unit == unit && !r.value.dryRun
      && (options.restartUnit ==> r.value.status.Some? && Healthy(r.value.status.value))
    ensures r.Err? ==>
      && Blames(w.c, bundle, options, answers, w.s.ds[d].job, r.error.stage) && !BeforeLock(r.error.stage)
      && TellsTheTruth(w.s, d, r.error)
    ensures w.faults >= old(w.faults) && w.taken >= old(w.taken) && w.sick >= old(w.sick)
    ensures r.Ok? ==> w.faults == old(w.faults)
    ensures r.Err? ==>
      HasCause(r.error.stage, Oversized(w.c, w.s.ds[d]), w.faults - old(w.faults), w.taken - old(w.taken), w.sick - old(w.sick))
    ensures Reported(r, w.s.ds[d], w.Deeds(d))
  {
    var fault := LoadImage(w, d, options, bundle, answers);
    if fault.Some? {
      w.NothingIsTold(d);
      return Err(Error(fault.value, NoRollback));
    }
    r := Transact(w, d, unit);
    if r.Err? {
      ExplainedIsTrue(w.s, d, r.error);
    }
  }

  /** `deploy` once its checks have passed, unless it is a dry run. */
  method Perform(w: Host, d: nat, options: Options, bundle: Bundle, answers: Answers, unit: string)
    returns (r: Result<Report, Error>)
    requires w.Valid() && d < |w.s.ds| && w.s.ds[d].phase.Idle? && JobOf(bundle, options, w.s.ds[d].job)
    requires Eligible(w.c, bundle, options, answers, w.s.ds[d].job) && !options.dryRun
    requires ArchiveWanted(bundle, options) ==> answers.archiveOpens
    modifies w
    ensures w.Valid() && d < |w.s.ds| && w.s.ds[d].job == old(w.s.ds[d].job)
    ensures r.Ok? ==>
      && Prepared(w.c, bundle, options, answers, w.s.ds[d].job) && w.s.ds[d].phase == Done(Committed)
      && r.value.path == Target(w.s.ds[d].job) && r.value.unit == unit && !r.value.dryRun
      && Surely(w.s.fs, Target(w.s.ds[d].job), Some(bundle.contents))
      && (options.restartUnit ==> r.value.status.Some? && Healthy(r.value.status.value))
    ensures r.Err? ==> Blames(w.c, bundle, options, answers, w.s.ds[d].job, r.error.stage)
    ensures r.Err? && BeforeLock(r.error.stage) ==> r.error.note.NoRollback? && w.s.ds[d].phase == Done(Untouched)
    ensures r.Err? && !BeforeLock(r.error.stage) ==> TellsTheTruth(w.s, d, r.error)
    ensures w.faults >= old(w.faults) && w.taken >= old(w.taken) && w.sick >= old(w.sick)
    ensures r.Ok? ==> w.faults == old(w.faults)
    ensures r.Err? ==>
      HasCause(r.error.stage, Oversized(w.c, w.s.ds[d]), w.faults - old(w.faults), w.taken - old(w.taken), w.sick - old(w.sick))
    ensures Reported(r, w.s.ds[d], w.Deeds(d))
  {
    var locked := LockDeployment(w, d);
    if !locked {
      w.NothingIsTold(d);
      return Err(Error(LockStage, NoRollback));
    }
    r := UnderLock(w, d, options, bundle, answers, unit);
  }

  lemma BadBundleExactly(b: Bundle)
    ensures ValidBundle(b) <==>
      && b.targetUid != 0 && b.serviceName != "" && !(b.hasArchive && b.archivePathEmpty)
      && b.file == b.serviceName + ".container" && Names.ValidQuadletFileName(b.file)
  {
    if Names.ValidQuadletFileName(b.file) {
      var base := b.file[..|b.file| - |Names.QUADLET_SUFFIX|];
      assert b.file == base + ".container";
      Names.UnitOfContainer(base);
      if base + ".service" == b.serviceName + ".service" {
        assert (base + ".service")[..|base|] == base && (b.serviceName + ".service")[..|base|] == b.serviceName;
      }
    }
  }

  /** `DeploymentOrchestrator::deploy`.

      Success: the path holds the bundle, durably, and a restarted unit ended loaded and active.  An error
      that reports the rollback as done: the path holds what it held at the lock (`entry`), durably.  Any other
      error leaves the path as it was at the lock, unless the directory fsync of the install or the restore
      failed; then the path is still one of the two. */
  method Deploy(w: Host, d: nat, options: Options, bundle: Bundle, answers: Answers) returns (r: Result<Report, Error>)
    requires w.Valid() && d < |w.s.ds| && w.s.ds[d].phase.Idle? && JobOf(bundle, options, w.s.ds[d].job)
    modifies w
    ensures w.Valid() && d < |w.s.ds| && w.s.ds[d].job == old(w.s.ds[d].job)
    ensures r.Ok? ==>
      && Prepared(w.c, bundle, options, answers, w.s.ds[d].job)
      && r.value.path == Target(w.s.ds[d].job) && r.value.unit == bundle.serviceName + ".service"
      && r.value.dryRun == options.dryRun
    ensures r.Ok? ==> bundle.targetUid != 0 && !(bundle.hasArchive && bundle.archivePathEmpty)
    ensures r.Err? && r.error.stage.BadBundle? ==>
      || bundle.targetUid == 0 || bundle.serviceName == "" || (bundle.hasArchive && bundle.archivePathEmpty)
      || bundle.file != bundle.serviceName + ".container" || !Names.ValidQuadletFileName(bundle.file)
    ensures r.Err? ==> Blames(w.c, bundle, options, answers, w.s.ds[d].job, r.error.stage)
    ensures r.Ok? && options.dryRun ==> w.s == old(w.s)
    ensures r.Ok? && !options.dryRun ==>
      && w.s.ds[d].phase == Done(Committed)
      && Surely(w.s.fs, Target(w.s.ds[d].job), Some(bundle.contents))
      && (options.restartUnit ==>
            r.value.status.Some? && r.value.status.value.load == "loaded" && r.value.status.value.active == "active")
    ensures r.Err? && BeforeLock(r.error.stage) ==> r.error.note.NoRollback? && w.s.ds[d].phase == Done(Untouched)
    ensures r.Err? && !BeforeLock(r.error.stage) ==> TellsTheTruth(w.s, d, r.error)
    ensures !options.dryRun && (r.Ok? || !BeforeLock(r.error.stage) || r.error.stage.LockStage?) ==>
      Reported(r, w.s.ds[d], w.Deeds(d))
    ensures r.Ok? ==> w.faults == old(w.faults)
    ensures r.Err? && (!BeforeLock(r.error.stage) || r.error.stage.LockStage?) ==>
      && w.faults >= old(w.faults) && w.taken >= old(w.taken) && w.sick >= old(w.sick)
      && HasCause(r.error.stage, Oversized(w.c, w.s.ds[d]), w.faults - old(w.faults), w.taken - old(w.taken), w.sick - old(w.sick))
  {
    var fault := Prepare(w, d, options, bundle, answers);
    if fault.Some? {
      BadBundleExactly(bundle);
      return Err(Error(fault.value, NoRollback));
    }
    var path, unit := Target(w.s.ds[d].job), Names.ServiceUnitName(bundle.file);
    if options.dryRun {
      return Ok(Report(path, unit, None, true));
    }
    r := Perform(w, d, options, bundle, answers, unit);
  }
}
