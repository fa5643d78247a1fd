/** Any number of deployments running at once, one event per system call or manager request.

    A `Phase` is the program point of one call of `DeploymentOrchestrator::deploy`.  All deployments share the
    Quadlet directories, the lock directory and one systemd manager per user; a process may crash at any
    point, and so may the whole system. */
module Machine {
  import opened Text
  import opened Disk
  import Names

  const MAX_ATTEMPTS := 100

  datatype Job = Job(uid: nat, file: string, contents: string, pid: nat, restart: bool)

  /** `atomic_write_file` runs for the new Quadlet or for putting the snapshot back. */
  datatype Goal = Install | Restore

  datatype Outcome =
    | Committed
    | RolledBack                        // error, "rolled back installed Quadlet"
    | Untouched                         // error before the final name was changed
    | InstallUnsynced                   // error from the directory fsync after the installing rename
    | RestoreFailed(applied: bool)      // error, "rollback failed"; is the new Quadlet still in place?

  datatype Phase =
    | Idle
    | Waiting(lock: Inode)              // lock file open, in flock
    | Holding                           // lock held, snapshot not yet taken
    | Opening(goal: Goal, attempt: nat)
    | Filling(goal: Goal, attempt: nat, ino: Inode)
    | Renaming(goal: Goal, attempt: nat, ino: Inode)
    | Cleaning(goal: Goal, attempt: nat)
    | Removing                          // restoring the absence of a file
    | Flushing(goal: Goal)              // final name changed, directory fsync next
    | Reloading(goal: Goal)             // about to ask for daemon-reload
    | Awaiting(goal: Goal)              // daemon-reload requested
    | Restarting(goal: Goal)
    | Done(outcome: Outcome)
    | Crashed(applied: bool)

  /** One deployment; `entry` and `survivors` record what its path held, and could hold after a crash, when it
      got the lock. */
  datatype Deployer = Deployer(
    job: Job, phase: Phase,
    entry: Option<string>, survivors: set<Option<string>>,
    snapshot: Option<string>, again: bool)

  /** A daemon-reload in progress: what it has read so far, and which deployment still waits for its reply. */
  datatype Reload = Reload(requester: Option<nat>, seen: map<Path, Option<string>>)

  datatype State = State(
    fs: Fs,
    base: Fs,                            // the file system at the start or after the last system crash
    locks: map<string, Inode>,           // the lock directory
    owner: map<Inode, nat>,              // flock: which deployment holds a lock file
    nextLock: Inode,
    loaded: map<Path, Option<string>>,   // what the users' managers have loaded
    busy: map<nat, Reload>,              // per user, the reload its manager is working on
    ds: seq<Deployer>,
    log: seq<nat>)                       // deployments since `base`, in the order they got their locks

  /** The installer all deployments share: policy and size limit, and the file system before any of them ran. */
  datatype Config = Config(accepts: (string, string) -> bool, maxBytes: nat, initial: Fs)

  /** What one deployment may do next; failures of the system calls are acts of their own. */
  datatype Act =
    | OpenLock | Acquire | GiveUp | TakeSnapshot
    | CreateTemp | TempExists | OpenFails
    | WriteSome(n: nat) | SyncTemp | WriteFails | RenameTemp | CleanTemp(unlinked: bool)
    | RemoveFinal | RemoveFails
    | FlushDir | FlushFails
    | AskReload | ReloadFails(ended: bool) | Restart(healthy: bool)
    | CrashProcess

  datatype Event =
    | By(d: nat, act: Act)
    | ReadUnit(p: Path)          // a manager reads one Quadlet during a reload
    | FinishReload(uid: nat)     // a manager swaps in what it read and replies
    | CrashSystem(after: Fs, afterLocks: map<string, Inode>, afterLoaded: map<Path, Option<string>>)

  function Target(job: Job): Path {
    Path(job.uid, job.file)
  }

  function TempPath(job: Job, attempt: nat): Path {
    Path(job.uid, Names.TempName(job.file, job.pid, attempt))
  }

  function LockOf(job: Job): string
    requires Names.ValidQuadletFileName(job.file)
  {
    Names.LockName(job.uid, Names.ServiceUnitName(job.file))
  }

  /** What the write of one goal puts at the path. */
  function TextFor(x: Deployer, goal: Goal): string {
    if goal.Install? then x.job.contents else if x.snapshot.Some? then x.snapshot.value else ""
  }

  predicate Holds(ph: Phase) {
    !ph.Idle? && !ph.Waiting? && !ph.Done? && !ph.Crashed?
  }

  /** Is the deployment's Quadlet, rather than what it found, at its path? */
  predicate Applied(ph: Phase) {
    match ph
    case Opening(g, _) => g.Restore?
    case Filling(g, _, _) => g.Restore?
    case Renaming(g, _, _) => g.Restore?
    case Cleaning(g, _) => g.Restore?
    case Removing => true
    case Flushing(g) => g.Install?
    case Reloading(g) => g.Install?
    case Awaiting(g) => g.Install?
    case Restarting(g) => g.Install?
    case Done(o) => o.Committed? || o.InstallUnsynced? || (o.RestoreFailed? && o.applied)
    case Crashed(applied) => applied
    case _ => false
  }

  function Loaded(s: State, p: Path): Option<string> {
    if p in s.loaded then s.loaded[p] else None
  }

  predicate Acceptable(c: Config, job: Job) {
    Names.ValidQuadletFileName(job.file) && |job.contents| <= c.maxBytes && c.accepts(job.file, job.contents)
  }

  // ----- What an act does to its deployment -----

  function FailWrite(x: Deployer, goal: Goal): Deployer {
    x.(phase := Done(if goal.Install? then Untouched else RestoreFailed(true)))
  }

  /** `rollback_error` up to its first system call. */
  function StartRestore(x: Deployer, again: bool): Deployer {
    x.(again := again, phase := if x.snapshot.Some? then Opening(Restore, 0) else Removing)
  }

  function AfterReload(x: Deployer, goal: Goal): Deployer {
    x.(phase := match goal
                case Install => if x.job.restart then Restarting(Install) else Done(Committed)
                case Restore => if x.again && x.snapshot.Some? then Restarting(Restore) else Done(RolledBack))
  }

  function LockInode(s: State, job: Job): Inode
    requires Names.ValidQuadletFileName(job.file)
  {
    if LockOf(job) in s.locks then s.locks[LockOf(job)] else s.nextLock
  }

  predicate ReadyBy(c: Config, s: State, d: nat, a: Act) {
    d < |s.ds| &&
    var x := s.ds[d];
    var ph := x.phase;
    match a
    case OpenLock => ph.Idle? && Acceptable(c, x.job)
    case Acquire => ph.Waiting? && ph.lock !in s.owner
    case GiveUp => ph.Idle? || ph.Waiting? || ph.Holding?
    case TakeSnapshot =>
      ph.Holding? && (var t := Read(s.fs, Target(x.job)); t.Some? ==> |t.value| <= c.maxBytes)
    case CreateTemp => ph.Opening? && TempPath(x.job, ph.attempt) !in s.fs.entries   // O_EXCL
    case TempExists => ph.Opening? && TempPath(x.job, ph.attempt) in s.fs.entries
    case OpenFails => ph.Opening?
    case WriteSome(n) =>
      ph.Filling? && ph.ino in s.fs.data && |s.fs.data[ph.ino]| + n <= |TextFor(x, ph.goal)|
    case SyncTemp => ph.Filling? && ph.ino in s.fs.data && |s.fs.data[ph.ino]| == |TextFor(x, ph.goal)|
    case WriteFails => ph.Filling? || ph.Renaming?
    case RenameTemp => ph.Renaming?
    case CleanTemp(_) => ph.Cleaning?
    case RemoveFinal => ph.Removing?
    case RemoveFails => ph.Removing?
    case FlushDir => ph.Flushing?
    case FlushFails => ph.Flushing?
    case AskReload => ph.Reloading? && x.job.uid !in s.busy
    case ReloadFails(_) => ph.Reloading? || ph.Awaiting?
    case Restart(_) => ph.Restarting?
    case CrashProcess => !ph.Done? && !ph.Crashed?
  }

  function Advance(c: Config, s: State, d: nat, a: Act): Deployer
    requires ReadyBy(c, s, d, a)
  {
    var x := s.ds[d];
    var ph := x.phase;
    match a
    case OpenLock => x.(phase := Waiting(LockInode(s, x.job)))
    case Acquire =>
      x.(phase := Holding, entry := Read(s.fs, Target(x.job)), survivors := Survivors(s.fs, Target(x.job)))
    case GiveUp => x.(phase := Done(Untouched))
    case TakeSnapshot => x.(phase := Opening(Install, 0), snapshot := Read(s.fs, Target(x.job)))
    case CreateTemp => x.(phase := Filling(ph.goal, ph.attempt, InodeFor(s.fs, TempPath(x.job, ph.attempt))))
    case TempExists =>
      if ph.attempt + 1 < MAX_ATTEMPTS then x.(phase := Opening(ph.goal, ph.attempt + 1)) else FailWrite(x, ph.goal)
    case OpenFails => FailWrite(x, ph.goal)
    case WriteSome(_) => x
    case SyncTemp => x.(phase := Renaming(ph.goal, ph.attempt, ph.ino))
    case WriteFails => x.(phase := Cleaning(ph.goal, ph.attempt))
    case RenameTemp => x.(phase := Flushing(ph.goal))
    case CleanTemp(_) => FailWrite(x, ph.goal)
    case RemoveFinal => x.(phase := Flushing(Restore))
    case RemoveFails => x.(phase := Done(RestoreFailed(true)))
    case FlushDir => x.(phase := Reloading(ph.goal))
    case FlushFails => x.(phase := Done(if ph.goal.Install? then InstallUnsynced else RestoreFailed(false)))
    case AskReload => x.(phase := Awaiting(ph.goal))
    case ReloadFails(_) => if ph.goal.Install? then StartRestore(x, false) else x.(phase := Done(RolledBack))
    case Restart(healthy) =>
      if ph.goal.Restore? then x.(phase := Done(RolledBack))
      else if healthy then x.(phase := Done(Committed))
      else StartRestore(x, true)
    case CrashProcess => x.(phase := Crashed(Applied(ph)))
  }

  // ----- What an act does to the shared state -----

  function Touch(c: Config, s: State, d: nat, a: Act): Fs
    requires ReadyBy(c, s, d, a)
  {
    var x := s.ds[d];
    var ph := x.phase;
    match a
    case CreateTemp => Create(s.fs, TempPath(x.job, ph.attempt))
    case WriteSome(n) =>
      var k := |s.fs.data[ph.ino]|;
      Append(s.fs, ph.ino, TextFor(x, ph.goal)[k..k + n])
    case SyncTemp => SyncFile(s.fs, ph.ino)
    case RenameTemp => Rename(s.fs, TempPath(x.job, ph.attempt), Target(x.job))
    case CleanTemp(unlinked) => if unlinked then Unlink(s.fs, TempPath(x.job, ph.attempt)) else s.fs
    case RemoveFinal => Unlink(s.fs, Target(x.job))
    case FlushDir => SyncDirectory(s.fs, x.job.uid)
    case _ => s.fs
  }

  /** Closing the lock file, by return or by crash, releases the flock. */
  function Release(owner: map<Inode, nat>, d: nat): map<Inode, nat> {
    map i | i in owner && owner[i] != d :: owner[i]
  }

  function Owners(s: State, d: nat, x: Deployer): map<Inode, nat>
    requires d < |s.ds|
  {
    if Holds(x.phase) then
      if s.ds[d].phase.Waiting? then s.owner[s.ds[d].phase.lock := d] else s.owner
    else Release(s.owner, d)
  }

  /** The reload a deployment asked for, or stopped waiting for: its manager may still be working on it. */
  function Busy(c: Config, s: State, d: nat, a: Act): map<nat, Reload>
    requires ReadyBy(c, s, d, a)
  {
    var uid := s.ds[d].job.uid;
    if a.AskReload? then s.busy[uid := Reload(Some(d), map[])]
    else if a.ReloadFails? && uid in s.busy && s.busy[uid].requester == Some(d) then
      if a.ended then s.busy - {uid} else s.busy[uid := s.busy[uid].(requester := None)]
    else s.busy
  }

  function NextBy(c: Config, s: State, d: nat, a: Act): State
    requires ReadyBy(c, s, d, a)
  {
    var x := Advance(c, s, d, a);
    s.(fs := Touch(c, s, d, a),
       locks := if a.OpenLock? then s.locks[LockOf(x.job) := LockInode(s, x.job)] else s.locks,
       nextLock := if a.OpenLock? then s.nextLock + 1 else s.nextLock,
       owner := Owners(s, d, x),
       busy := Busy(c, s, d, a),
       ds := s.ds[d := x],
       log := if a.Acquire? then s.log + [d] else s.log)
  }

  /** Events that one process, or a manager, may perform in `s`. */
  predicate Ready(c: Config, s: State, e: Event) {
    match e
    case By(d, a) => ReadyBy(c, s, d, a)
    case ReadUnit(p) => p.uid in s.busy
    case FinishReload(uid) =>
      && uid in s.busy
      && (var r := s.busy[uid].requester;
          r.Some? && r.value < |s.ds| && s.ds[r.value].phase.Awaiting? ==> Target(s.ds[r.value].job) in s.busy[uid].seen)
    case CrashSystem(_, _, _) => false
  }

  ghost predicate Enabled(c: Config, s: State, e: Event) {
    if e.CrashSystem? then CrashTo(s.fs, e.after) else Ready(c, s, e)
  }

  function FinishedReload(s: State, uid: nat): State
    requires uid in s.busy
  {
    var r := s.busy[uid];
    var s' := s.(loaded := s.loaded + r.seen, busy := s.busy - {uid});
    if r.requester.Some? && r.requester.value < |s.ds| && s.ds[r.requester.value].phase.Awaiting? then
      var d := r.requester.value;
      var x := AfterReload(s.ds[d], s.ds[d].phase.goal);
      s'.(ds := s.ds[d := x], owner := Owners(s, d, x))
    else s'
  }

  function Next(c: Config, s: State, e: Event): State
    requires e.CrashSystem? || Ready(c, s, e)
  {
    match e
    case By(d, a) => NextBy(c, s, d, a)
    case ReadUnit(p) =>
      var r := s.busy[p.uid];
      s.(busy := s.busy[p.uid := r.(seen := r.seen[p := Read(s.fs, p)])])
    case FinishReload(uid) => FinishedReload(s, uid)
    case CrashSystem(after, locks, loaded) =>
      State(after, after, locks, map[], s.nextLock, loaded, map[], AllDead(s.ds), [])
  }

  /** A system crash ends every deployment that had started. */
  function AllDead(ds: seq<Deployer>): (r: seq<Deployer>)
    ensures |r| == |ds|
    ensures forall d :: 0 <= d < |ds| ==>
              r[d] == (if ds[d].phase.Idle? || ds[d].phase.Done? || ds[d].phase.Crashed? then ds[d]
                       else ds[d].(phase := Crashed(Applied(ds[d].phase))))
  {
    seq(|ds|, d requires 0 <= d < |ds| =>
      if ds[d].phase.Idle? || ds[d].phase.Done? || ds[d].phase.Crashed? then ds[d]
      else ds[d].(phase := Crashed(Applied(ds[d].phase))))
  }

  /** Nothing has run yet and everything visible is on stable storage. */
  ghost predicate Init(c: Config, s: State) {
    && s.fs == s.base == c.initial
    && WellFormed(s.fs) && s.fs.past == map[] && s.fs.synced == s.fs.data.Keys
    && s.owner == map[] && s.busy == map[] && s.log == []
    && forall d :: 0 <= d < |s.ds| ==> s.ds[d].phase.Idle?
  }

  ghost predicate ValidRun(c: Config, s: State, es: seq<Event>)
    decreases |es|
  {
    es == [] || (Enabled(c, s, es[0]) && ValidRun(c, Next(c, s, es[0]), es[1..]))
  }

  ghost function After(c: Config, s: State, es: seq<Event>): State
    requires ValidRun(c, s, es)
    decreases |es|
  {
    if es == [] then s else After(c, Next(c, s, es[0]), es[1..])
  }
}
