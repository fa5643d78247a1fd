/** What the invariant means for the callers of `deploy`, for administrators and after a power cut. */
module Guarantees {
  import opened Text
  import opened Disk
  import opened Machine
  import opened Safety
  import Names

  /** Any state any run of deployments, managers and crashes can reach. */
  ghost predicate Reachable(c: Config, s: State) {
    exists s0, es :: Init(c, s0) && ValidRun(c, s0, es) && s == After(c, s0, es)
  }

  lemma ReachableInv(c: Config, s: State)
    requires Reachable(c, s)
    ensures Inv(c, s)
  {
    var s0, es :| Init(c, s0) && ValidRun(c, s0, es) && s == After(c, s0, es);
    InitInv(c, s0);
    RunKeepsInv(c, s0, es);
  }

  // ----- Locks -----

  /** At most one deployment per (uid, unit) is between lock and return. */
  lemma OneDeploymentPerUnit(c: Config, s: State, d: nat, e: nat)
    requires Reachable(c, s) && d < |s.ds| && e < |s.ds|
    requires Holds(s.ds[d].phase) && Holds(s.ds[e].phase)
    requires s.ds[d].job.uid == s.ds[e].job.uid
    requires Names.ValidQuadletFileName(s.ds[d].job.file) && Names.ValidQuadletFileName(s.ds[e].job.file)
    requires Names.ServiceUnitName(s.ds[d].job.file) == Names.ServiceUnitName(s.ds[e].job.file)
    ensures d == e
  {
    ReachableInv(c, s);
    assert Mine(c, s, d) && Mine(c, s, e);
    Names.UnitDeterminesFile(s.ds[d].job.file, s.ds[e].job.file);
    MutualExclusion(c, s, d, e);
  }

  /** Until the system goes down, a lock name keeps its inode. */
  lemma {:induction false} LockInodeStays(c: Config, s: State, es: seq<Event>, name: string)
    requires Inv(c, s) && ValidRun(c, s, es) && (forall e <- es :: !e.CrashSystem?) && name in s.locks
    ensures var t := After(c, s, es); name in t.locks && t.locks[name] == s.locks[name]
    decreases |es|
  {
    if es != [] {
      assert es[0] in es && forall e <- es[1..] :: e in es;
      StepKeepsInv(c, s, es[0]);
      LockInodeStays(c, Next(c, s, es[0]), es[1..], name);
    }
  }

  /** From lock to return the path holds what was found there, or the bundle, and nothing else. */
  lemma WindowHolds(c: Config, s: State, d: nat)
    requires Reachable(c, s) && d < |s.ds| && Holds(s.ds[d].phase)
    ensures var x := s.ds[d]; var r := Read(s.fs, Target(x.job));
      && (r == x.entry || r == Some(x.job.contents))
      && (!x.phase.Holding? ==> x.snapshot == x.entry)
  {
    ReachableInv(c, s);
    assert Mine(c, s, d);
  }

  // ----- Outcome of one deployment -----

  ghost predicate Returns(c: Config, s: State, e: Event, d: nat) {
    && Enabled(c, s, e)
    && d < |s.ds| && Holds(s.ds[d].phase)
    && Next(c, s, e).ds[d].phase.Done?
  }

  lemma ReturnByAct(c: Config, s: State, d: nat, a: Act)
    requires ReadyBy(c, s, d, a) && Holds(s.ds[d].phase) && Advance(c, s, d, a).phase.Done?
    ensures var x, x' := s.ds[d], Advance(c, s, d, a);
      && Applied(x'.phase) == Applied(x.phase) && x'.snapshot == x.snapshot && !a.RenameTemp? && !a.RemoveFinal?
      && (x'.phase == Done(Committed) || x'.phase == Done(RolledBack) ==> Flushed(x.phase) && Touch(c, s, d, a) == s.fs)
  {
  }

  lemma ReturnByReply(c: Config, s: State, e: Event, d: nat)
    requires Returns(c, s, e, d) && !(e.By? && e.d == d)
    ensures e.FinishReload? && ReplyStep(s.ds[d], Next(c, s, e).ds[d]) && Next(c, s, e).fs == s.fs
  {
    if e.FinishReload? {
      ReplyMoves(s, e.uid, d);
    }
  }

  /** The last step of a call only closes the books: it changes nothing at the deployment's path, and success
      or a completed rollback comes after the directory fsync. */
  lemma ReturnShape(c: Config, s: State, e: Event, d: nat)
    requires Inv(c, s) && Returns(c, s, e, d)
    ensures var x, x' := s.ds[d], Next(c, s, e).ds[d];
      && x'.job == x.job && x'.entry == x.entry && x'.snapshot == x.snapshot
      && Applied(x'.phase) == Applied(x.phase)
      && (x'.phase == Done(Committed) || x'.phase == Done(RolledBack) ==> Flushed(x.phase) && Next(c, s, e).fs == s.fs)
  {
    if e.By? && e.d == d {
      AdvanceMoves(c, s, d, e.act);
      ReturnByAct(c, s, d, e.act);
    } else {
      ReturnByReply(c, s, e, d);
    }
  }

  lemma ReturnLeavesPath(c: Config, s: State, e: Event, d: nat)
    requires Inv(c, s) && Returns(c, s, e, d)
    ensures Read(Next(c, s, e).fs, Target(s.ds[d].job)) == Read(s.fs, Target(s.ds[d].job))
  {
    assert Mine(c, s, d);
    if e.By? && e.d == d {
      ReturnByAct(c, s, d, e.act);
      QuietPath(c, s, d, e.act, Target(s.ds[d].job));
    } else {
      ReturnByReply(c, s, e, d);
    }
  }

  /** What an outcome says of the path. */
  ghost predicate OutcomeHolds(fs: Fs, x: Deployer)
    requires x.phase.Done?
  {
    var r := Read(fs, Target(x.job));
    match x.phase.outcome
    case Committed => r == Some(x.job.contents)
    case RolledBack => r == x.entry == x.snapshot
    case Untouched => r == x.entry
    case InstallUnsynced => r == Some(x.job.contents)
    case RestoreFailed(applied) => r == (if applied then Some(x.job.contents) else x.entry)
  }

  lemma WindowDecidesOutcome(c: Config, fs: Fs, x: Deployer, fs': Fs, x': Deployer)
    requires Holds(x.phase) && ViewOk(c, fs, x) && x'.phase.Done?
    requires x'.job == x.job && x'.entry == x.entry && x'.snapshot == x.snapshot && Applied(x'.phase) == Applied(x.phase)
    requires x'.phase == Done(RolledBack) ==> Flushed(x.phase)
    requires Read(fs', Target(x.job)) == Read(fs, Target(x.job))
    ensures OutcomeHolds(fs', x')
  {
  }

  /** What the final name holds when a deployment returns, for each way it can return; `entry` is what it held
      when the deployment got its lock. */
  lemma OutcomeIsExact(c: Config, s: State, e: Event, d: nat)
    requires Reachable(c, s) && Returns(c, s, e, d)
    ensures OutcomeHolds(Next(c, s, e).fs, Next(c, s, e).ds[d])
  {
    ReachableInv(c, s);
    assert Mine(c, s, d);
    ReturnShape(c, s, e, d);
    ReturnLeavesPath(c, s, e, d);
    WindowDecidesOutcome(c, s.fs, s.ds[d], Next(c, s, e).fs, Next(c, s, e).ds[d]);
  }

  // ----- Systemd -----

  /** The manager has loaded what is at `p`, and a reload in progress can only confirm it. */
  ghost predicate LoadedIs(s: State, p: Path) {
    && Loaded(s, p) == Read(s.fs, p)
    && (p.uid in s.busy && p in s.busy[p.uid].seen ==> s.busy[p.uid].seen[p] == Read(s.fs, p))
  }

  /** When the manager answers a deployment's own daemon-reload, it has loaded the file at its path. */
  lemma OwnReloadLoadsTheFile(c: Config, s: State, d: nat)
    requires Reachable(c, s) && d < |s.ds| && s.ds[d].phase.Awaiting?
    requires var uid := s.ds[d].job.uid;
      Enabled(c, s, FinishReload(uid)) && s.busy[uid].requester == Some(d)
    ensures var t := Next(c, s, FinishReload(s.ds[d].job.uid)); var x := t.ds[d];
      && (x.phase.Restarting? || x.phase.Done?)
      && LoadedIs(t, Target(x.job))
      && Read(t.fs, Target(x.job)) == (if Applied(x.phase) then Some(x.job.contents) else x.entry)
  {
    ReachableInv(c, s);
    assert Mine(c, s, d);
    OwnReply(c, s, d);
  }

  lemma OwnReply(c: Config, s: State, d: nat)
    requires d < |s.ds| && s.ds[d].phase.Awaiting? && BusyOk(s) && ManagerOk(s, s.ds[d]) && ViewOk(c, s.fs, s.ds[d])
    requires var uid := s.ds[d].job.uid;
      Ready(c, s, FinishReload(uid)) && s.busy[uid].requester == Some(d)
    ensures var t := FinishedReload(s, s.ds[d].job.uid); var x := t.ds[d];
      && (x.phase.Restarting? || x.phase.Done?)
      && LoadedIs(t, Target(x.job))
      && Read(t.fs, Target(x.job)) == (if Applied(x.phase) then Some(x.job.contents) else x.entry)
  {
    AfterReloadMoves(s.ds[d]);
    ReplyLoads(s, s.ds[d].job.uid, Target(s.ds[d].job));
  }

  /** Whoever else reloads the manager meanwhile, a restart runs exactly what is on disk: the bundle going
      forward, the snapshot in a rollback. */
  lemma RestartRunsTheDisk(c: Config, s: State, d: nat, healthy: bool)
    requires Reachable(c, s) && Enabled(c, s, By(d, Restart(healthy)))
    ensures var x := s.ds[d]; var p := Target(x.job);
      && Loaded(s, p) == Read(s.fs, p)
      && Loaded(s, p) == (if x.phase.goal.Install? then Some(x.job.contents) else x.snapshot)
  {
    ReachableInv(c, s);
    AgreedSees(c, s, d);
  }

  /** In agreement with the manager: what is loaded is what is at the path, the bundle or the snapshot. */
  lemma AgreedSees(c: Config, s: State, d: nat)
    requires Mine(c, s, d) && d < |s.ds| && Agreed(s.ds[d])
    ensures var x := s.ds[d]; var p := Target(x.job);
      && Loaded(s, p) == Read(s.fs, p)
      && Loaded(s, p) == (if Applied(x.phase) then Some(x.job.contents) else x.snapshot)
  {
  }

  /** Nobody's reload, restart or write can end a deployment's agreement with the manager: only its own change
      of the path does, the restoring rename or unlink. */
  lemma OthersReloadsAgree(c: Config, s: State, d: nat, e: Event)
    requires Reachable(c, s) && d < |s.ds| && Agreed(s.ds[d])
    requires Enabled(c, s, e) && !e.CrashSystem? && !(e.By? && e.d == d)
    ensures var p := Target(s.ds[d].job); var t := Next(c, s, e);
      && t.ds[d] == s.ds[d] && Agreed(t.ds[d])
      && Loaded(t, p) == Loaded(s, p) == Read(t.fs, p) == Read(s.fs, p)
  {
    ReachableInv(c, s);
    StepKeepsInv(c, s, e);
    OthersLeave(c, s, d, e);
    assert Mine(c, s, d) && Mine(c, Next(c, s, e), d);
    OthersLeavePath(c, s, d, e);
  }

  lemma OthersLeave(c: Config, s: State, d: nat, e: Event)
    requires d < |s.ds| && Enabled(c, s, e) && !e.CrashSystem? && !(e.By? && e.d == d) && !s.ds[d].phase.Awaiting?
    ensures d < |Next(c, s, e).ds| && Next(c, s, e).ds[d] == s.ds[d]
  {
    if e.FinishReload? {
      ReplyMoves(s, e.uid, d);
    }
  }

  lemma OthersLeavePath(c: Config, s: State, d: nat, e: Event)
    requires Inv(c, s) && d < |s.ds| && Holds(s.ds[d].phase)
    requires Enabled(c, s, e) && !e.CrashSystem? && !(e.By? && e.d == d)
    ensures Read(Next(c, s, e).fs, Target(s.ds[d].job)) == Read(s.fs, Target(s.ds[d].job))
  {
    if e.By? {
      OtherPath(c, s, e.d, e.act, d);
    }
  }

  /** Event `e` changes what is at the path of deployment `d`. */
  predicate ChangesOwnPath(e: Event, d: nat) {
    e.By? && e.d == d && (e.act.RenameTemp? || e.act.RemoveFinal?)
  }

  lemma AgreementStep(c: Config, s: State, d: nat, e: Event)
    requires Inv(c, s) && Enabled(c, s, e) && d < |s.ds| && !ChangesOwnPath(e, d)
    requires Agreed(s.ds[d]) || Returned(s.ds[d].phase)
    ensures var t := Next(c, s, e); d < |t.ds| && t.ds[d].job == s.ds[d].job && (Agreed(t.ds[d]) || Returned(t.ds[d].phase))
  {
    if e.By? && e.d == d {
      AgreementMoves(c, s, d, e.act);
    } else if !e.CrashSystem? {
      OthersLeave(c, s, d, e);
    }
  }

  predicate Returned(ph: Phase) {
    ph.Done? || ph.Crashed?
  }

  lemma {:induction false} AgreementRun(c: Config, s: State, d: nat, es: seq<Event>)
    requires Inv(c, s) && ValidRun(c, s, es) && d < |s.ds| && forall e <- es :: !ChangesOwnPath(e, d)
    requires Agreed(s.ds[d]) || Returned(s.ds[d].phase)
    ensures var t := After(c, s, es); Inv(c, t) && d < |t.ds| && (Agreed(t.ds[d]) || Returned(t.ds[d].phase))
    decreases |es|
  {
    if es != [] {
      assert es[0] in es && forall e <- es[1..] :: e in es;
      StepKeepsInv(c, s, es[0]);
      AgreementStep(c, s, d, es[0]);
      AgreementRun(c, Next(c, s, es[0]), d, es[1..]);
    }
  }

  /** Manager agreement: after a deployment's own successful daemon-reload, until it next changes its path or
      gives up its lock, the manager has loaded what is at that path, whatever others write, reload or restart. */
  lemma LoadedUntilOwnChange(c: Config, s: State, d: nat, es: seq<Event>)
    requires Reachable(c, s) && d < |s.ds| && s.ds[d].phase.Awaiting?
    requires var uid := s.ds[d].job.uid;
      Enabled(c, s, FinishReload(uid)) && s.busy[uid].requester == Some(d)
    requires ValidRun(c, Next(c, s, FinishReload(s.ds[d].job.uid)), es) && forall e <- es :: !ChangesOwnPath(e, d)
    ensures var t := After(c, Next(c, s, FinishReload(s.ds[d].job.uid)), es);
      d < |t.ds| && (Holds(t.ds[d].phase) ==> Loaded(t, Target(t.ds[d].job)) == Read(t.fs, Target(t.ds[d].job)))
  {
    ReachableInv(c, s);
    var answer := FinishReload(s.ds[d].job.uid);
    StepKeepsInv(c, s, answer);
    AfterReloadMoves(s.ds[d]);
    AgreementRun(c, Next(c, s, answer), d, es);
    assert Mine(c, After(c, Next(c, s, answer), es), d);
  }

  // ----- The path as anybody may change it -----

  /** Event `e` is some deployment's change of `p`. */
  predicate Changes(s: State, e: Event, p: Path) {
    e.By? && (e.act.RenameTemp? || e.act.RemoveFinal?) && e.d < |s.ds| && Target(s.ds[e.d].job) == p
  }

  lemma UnchangedStep(c: Config, s: State, e: Event, p: Path)
    requires Inv(c, s) && Enabled(c, s, e) && !e.CrashSystem? && !Changes(s, e, p)
    requires QuadletPath(p) && LoadedIs(s, p)
    ensures LoadedIs(Next(c, s, e), p)
  {
    match e {
      case By(d, a) =>
        QuietPath(c, s, d, a, p);
        if p.uid in Next(c, s, e).busy {
          BusyMoves(c, s, d, a, p.uid);
        }
      case FinishReload(uid) => ReplyLoads(s, uid, p);
      case _ =>
    }
  }

  /** Beyond the return, too: while nobody changes the path, what is loaded for it stays what is at it. */
  lemma {:induction false} LoadedUntilChanged(c: Config, s: State, es: seq<Event>, p: Path)
    requires Inv(c, s) && ValidRun(c, s, es) && QuadletPath(p) && LoadedIs(s, p)
    requires forall e <- es :: !e.CrashSystem? && !Changes(s, e, p)
    ensures LoadedIs(After(c, s, es), p)
    decreases |es|
  {
    if es != [] {
      assert es[0] in es && forall e <- es[1..] :: e in es;
      StepKeepsInv(c, s, es[0]);
      UnchangedStep(c, s, es[0], p);
      JobsStay(c, s, es[0]);
      LoadedUntilChanged(c, Next(c, s, es[0]), es[1..], p);
    }
  }

  // ----- Power cuts -----

  /** A crash leaves one of the texts that may survive. */
  lemma CrashPicksSurvivor(c: Config, fs: Fs, after: Fs, p: Path)
    requires FileOk(c, fs, p) && CrashTo(fs, after)
    ensures Read(after, p) in Survivors(fs, p)
    ensures Read(after, p).Some? ==> Allowed(c, p, Read(after, p).value)
  {
    assert Lookup(after, p) in Candidates(fs, p);
    assert TextOf(after, Lookup(after, p)) == TextOf(fs, Lookup(after, p));
  }

  /** Whatever a crash at this instant leaves at a Quadlet path is one complete text the path may hold. */
  lemma CrashLeavesCompleteFiles(c: Config, s: State, after: Fs, p: Path)
    requires Reachable(c, s) && CrashTo(s.fs, after) && QuadletPath(p)
    ensures Read(after, p) in Survivors(s.fs, p)
    ensures Read(after, p).Some? ==> Allowed(c, p, Read(after, p).value)
  {
    ReachableInv(c, s);
    assert FileOk(c, s.fs, p);
    CrashPicksSurvivor(c, s.fs, after, p);
  }

  /** A crash while a deployment has its lock leaves the complete bundle, or a text that could survive already
      when it got the lock; never a part of either. */
  lemma CrashInWindow(c: Config, s: State, after: Fs, d: nat)
    requires Inv(c, s) && CrashTo(s.fs, after) && d < |s.ds| && Holds(s.ds[d].phase)
    ensures var x := s.ds[d]; Read(after, Target(x.job)) in x.survivors + {Some(x.job.contents)}
  {
    assert Mine(c, s, d);
    assert FileOk(c, s.fs, Target(s.ds[d].job)) && DurableOk(s.fs, s.ds[d]);
    CrashPicksSurvivor(c, s.fs, after, Target(s.ds[d].job));
  }

  /** Reported success is durable, and so is a completed rollback: a crash right after the return cannot
      bring anything else back. */
  lemma ReturnIsDurable(c: Config, s: State, e: Event, d: nat, after: Fs)
    requires Reachable(c, s) && Returns(c, s, e, d)
    requires CrashTo(Next(c, s, e).fs, after)
    ensures var x := Next(c, s, e).ds[d];
      && (x.phase == Done(Committed) ==> Read(after, Target(x.job)) == Some(x.job.contents))
      && (x.phase == Done(RolledBack) ==> Read(after, Target(x.job)) == x.entry)
  {
    var x := Next(c, s, e).ds[d];
    if x.phase == Done(Committed) || x.phase == Done(RolledBack) {
      OutcomeIsExact(c, s, e, d);
      SettledAtReturn(c, s, e, d);
      SettledSurvives(c, Next(c, s, e).fs, Target(x.job), after);
    }
  }

  lemma SettledAtReturn(c: Config, s: State, e: Event, d: nat)
    requires Reachable(c, s) && Returns(c, s, e, d)
    requires var ph := Next(c, s, e).ds[d].phase; ph == Done(Committed) || ph == Done(RolledBack)
    ensures var t := Next(c, s, e); var p := Target(t.ds[d].job);
      t.fs == s.fs && FileOk(c, t.fs, p) && Past(t.fs, p) == {}
  {
    ReachableInv(c, s);
    assert Mine(c, s, d);
    ReturnShape(c, s, e, d);
    assert FileOk(c, s.fs, Target(s.ds[d].job)) && DurableOk(s.fs, s.ds[d]);
  }

  /** With no older entry left, and its data synced, a file is what every crash leaves. */
  lemma SettledSurvives(c: Config, fs: Fs, p: Path, after: Fs)
    requires FileOk(c, fs, p) && Past(fs, p) == {} && CrashTo(fs, after)
    ensures Read(after, p) == Read(fs, p)
  {
    assert Candidates(fs, p) == {Lookup(fs, p)};
    assert Lookup(after, p) in Candidates(fs, p);
  }

  // ----- Policy -----

  /** In every reachable state every Quadlet path is empty, or as it was at first, or holds a text the policy
      accepts within the size limit. */
  lemma OnlyAllowedFiles(c: Config, s: State, p: Path)
    requires Reachable(c, s) && QuadletPath(p)
    ensures Read(s.fs, p).Some? ==> Allowed(c, p, Read(s.fs, p).value)
  {
    ReachableInv(c, s);
    assert FileOk(c, s.fs, p);
    assert Lookup(s.fs, p) in Candidates(s.fs, p);
  }
}
