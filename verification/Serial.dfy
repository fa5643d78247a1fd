/** Concurrent deployments are equivalent to the same deployments one at a time, in the order of their locks. */
module Serial {
  import opened Text
  import opened Disk
  import opened Machine
  import opened Safety

  /** The one-at-a-time run at one path: a deployment in effect replaces the contents, any other leaves them. */
  ghost function Replay(base: Fs, ds: seq<Deployer>, log: seq<nat>, p: Path): Option<string> {
    if log == [] then Read(base, p)
    else
      var d := log[|log| - 1];
      if d < |ds| && Target(ds[d].job) == p && Applied(ds[d].phase) then Some(ds[d].job.contents)
      else Replay(base, ds, log[..|log| - 1], p)
  }

  /** Entry `k` of the log is `d`'s only one, and `d` was the last to lock its path. */
  ghost predicate LockedAt(s: State, d: nat, k: nat)
    requires d < |s.ds|
  {
    && k < |s.log| && s.log[k] == d && d !in s.log[..k]
    && (forall j :: k < j < |s.log| && s.log[j] < |s.ds| ==> Target(s.ds[s.log[j]].job) != Target(s.ds[d].job))
  }

  ghost predicate Ordered(s: State, d: nat) {
    d < |s.ds| && Holds(s.ds[d].phase) ==> exists k: nat :: LockedAt(s, d, k)
  }

  /** Whoever got the `k`-th lock found what running those before it one at a time leaves. */
  ghost predicate Found(s: State, k: nat) {
    k < |s.log| && s.log[k] < |s.ds| ==>
      var x := s.ds[s.log[k]];
      Replay(s.base, s.ds, s.log[..k], Target(x.job)) == x.entry
  }

  ghost predicate LogOk(s: State) {
    && (forall d <- s.log :: d < |s.ds| && !s.ds[d].phase.Idle? && !s.ds[d].phase.Waiting?)
    && (forall i, j :: 0 <= i < j < |s.log| ==> s.log[i] != s.log[j])
  }

  ghost predicate SerialAt(s: State, p: Path) {
    Read(s.fs, p) == Replay(s.base, s.ds, s.log, p)
  }

  ghost predicate SerialInv(s: State) {
    && LogOk(s)
    && (forall d: nat :: Ordered(s, d))
    && (forall k: nat :: Found(s, k))
    && (forall p | QuadletPath(p) :: SerialAt(s, p))
  }

  /** Replaying depends on nothing but which deployments of the path are in effect. */
  lemma {:induction false} ReplayFrame(base: Fs, ds: seq<Deployer>, ds': seq<Deployer>, log: seq<nat>, p: Path)
    requires |ds| == |ds'|
    requires forall d <- log :: d < |ds| ==> ds'[d].job == ds[d].job
    requires forall d <- log :: d < |ds| && Target(ds[d].job) == p ==> Applied(ds'[d].phase) == Applied(ds[d].phase)
    ensures Replay(base, ds', log, p) == Replay(base, ds, log, p)
  {
    if log != [] {
      var front := log[..|log| - 1];
      assert forall d <- front :: d in log;
      assert log[|log| - 1] in log;
      ReplayFrame(base, ds, ds', front, p);
    }
  }

  /** Deployments of other paths, later in the log, do not matter. */
  lemma {:induction false} ReplayUpTo(s: State, d: nat, k: nat)
    requires d < |s.ds| && LockedAt(s, d, k) && Found(s, k)
    ensures Replay(s.base, s.ds, s.log, Target(s.ds[d].job)) ==
            (if Applied(s.ds[d].phase) then Some(s.ds[d].job.contents) else s.ds[d].entry)
    decreases |s.log|
  {
    var n := |s.log| - 1;
    if k < n {
      var shorter := s.(log := s.log[..n]);
      assert shorter.log[..k] == s.log[..k];
      ReplayUpTo(shorter, d, k);
    }
  }

  /** After an act the path shows what the deployment's program point says. */
  lemma OwnPathAfter(c: Config, s: State, d: nat, a: Act)
    requires ReadyBy(c, s, d, a) && Inv(c, s) && Holds(s.ds[d].phase)
    ensures var x := s.ds[d]; var x' := Advance(c, s, d, a);
      && x'.job == x.job && x'.entry == x.entry
      && Read(Touch(c, s, d, a), Target(x.job)) == (if Applied(x'.phase) then Some(x.job.contents) else x.entry)
  {
    assert Mine(c, s, d);
    AdvanceMoves(c, s, d, a);
    TouchLeaves(c, s, d, a);
  }

  /** Only a holder's act, and only on its own path, changes what is in effect. */
  lemma EffectIsOwn(c: Config, s: State, d: nat, a: Act, e: nat)
    requires ReadyBy(c, s, d, a) && Inv(c, s) && e < |s.ds|
    requires e != d || !Holds(s.ds[d].phase)
    ensures Applied(NextBy(c, s, d, a).ds[e].phase) == Applied(s.ds[e].phase)
    ensures NextBy(c, s, d, a).ds[e].job == s.ds[e].job
  {
    AdvanceMoves(c, s, d, a);
  }

  lemma ByKeepsOrder(c: Config, s: State, d: nat, a: Act, e: nat)
    requires ReadyBy(c, s, d, a) && Inv(c, s) && SerialInv(s) && !a.Acquire?
    ensures Ordered(NextBy(c, s, d, a), e)
  {
    var s' := NextBy(c, s, d, a);
    AdvanceMoves(c, s, d, a);
    if e < |s.ds| && Holds(s'.ds[e].phase) {
      assert Ordered(s, e);
      var k: nat :| LockedAt(s, e, k);
      assert LockedAt(s', e, k);
    }
  }

  /** A holder's own act is no matter to those that found its path before it. */
  lemma EarlierIsOther(s: State, d: nat, k: nat)
    requires SerialInv(s) && d < |s.ds| && Holds(s.ds[d].phase)
    requires k < |s.log| && s.log[k] < |s.ds| && Target(s.ds[s.log[k]].job) == Target(s.ds[d].job)
    ensures d !in s.log[..k]
  {
    assert Ordered(s, d);
    var j: nat :| LockedAt(s, d, j);
    assert !(j < k);
    assert s.log[..k] <= s.log[..j];
  }

  lemma ByKeepsFound(c: Config, s: State, d: nat, a: Act, k: nat)
    requires ReadyBy(c, s, d, a) && Inv(c, s) && SerialInv(s) && !a.Acquire?
    ensures Found(NextBy(c, s, d, a), k)
  {
    var s' := NextBy(c, s, d, a);
    AdvanceMoves(c, s, d, a);
    if k < |s.log| {
      assert s.log[k] in s.log && Found(s, k);
      var p := Target(s.ds[s.log[k]].job);
      forall f <- s.log[..k] | f < |s.ds| && Target(s.ds[f].job) == p
        ensures Applied(s'.ds[f].phase) == Applied(s.ds[f].phase)
      {
        if f == d && Holds(s.ds[d].phase) {
          EarlierIsOther(s, d, k);
        }
        EffectIsOwn(c, s, d, a, f);
      }
      ReplayFrame(s.base, s.ds, s'.ds, s.log[..k], p);
    }
  }

  lemma OthersSerial(c: Config, s: State, d: nat, a: Act, p: Path)
    requires ReadyBy(c, s, d, a) && Inv(c, s) && SerialInv(s) && !a.Acquire? && QuadletPath(p)
    requires !Holds(s.ds[d].phase) || p != Target(s.ds[d].job)
    ensures SerialAt(NextBy(c, s, d, a), p)
  {
    var s' := NextBy(c, s, d, a);
    assert SerialAt(s, p) && Mine(c, s, d);
    AdvanceMoves(c, s, d, a);
    QuietPath(c, s, d, a, p);
    forall f <- s.log | f < |s.ds| && Target(s.ds[f].job) == p
      ensures Applied(s'.ds[f].phase) == Applied(s.ds[f].phase)
    {
      EffectIsOwn(c, s, d, a, f);
    }
    ReplayFrame(s.base, s.ds, s'.ds, s.log, p);
  }

  lemma OwnSerial(c: Config, s: State, d: nat, a: Act)
    requires ReadyBy(c, s, d, a) && Inv(c, s) && SerialInv(s) && !a.Acquire? && Holds(s.ds[d].phase)
    ensures SerialAt(NextBy(c, s, d, a), Target(s.ds[d].job))
  {
    var s' := NextBy(c, s, d, a);
    AdvanceMoves(c, s, d, a);
    assert Ordered(s, d);
    var k: nat :| LockedAt(s, d, k);
    OwnPathAfter(c, s, d, a);
    ByKeepsFound(c, s, d, a, k);
    assert LockedAt(s', d, k);
    ReplayUpTo(s', d, k);
  }

  lemma ByKeepsSerial(c: Config, s: State, d: nat, a: Act, p: Path)
    requires ReadyBy(c, s, d, a) && Inv(c, s) && SerialInv(s) && !a.Acquire? && QuadletPath(p)
    ensures SerialAt(NextBy(c, s, d, a), p)
  {
    if Holds(s.ds[d].phase) && p == Target(s.ds[d].job) {
      OwnSerial(c, s, d, a);
    } else {
      OthersSerial(c, s, d, a, p);
    }
  }

  lemma ByKeepsLog(c: Config, s: State, d: nat, a: Act)
    requires ReadyBy(c, s, d, a) && LogOk(s) && !a.Acquire?
    ensures LogOk(NextBy(c, s, d, a))
  {
  }

  lemma ByKeepsSerialInv(c: Config, s: State, d: nat, a: Act)
    requires ReadyBy(c, s, d, a) && Inv(c, s) && SerialInv(s) && !a.Acquire?
    ensures SerialInv(NextBy(c, s, d, a))
  {
    var s' := NextBy(c, s, d, a);
    ByKeepsLog(c, s, d, a);
    forall e: nat ensures Ordered(s', e) {
      ByKeepsOrder(c, s, d, a, e);
    }
    forall k: nat ensures Found(s', k) {
      ByKeepsFound(c, s, d, a, k);
    }
    forall p | QuadletPath(p) ensures SerialAt(s', p) {
      ByKeepsSerial(c, s, d, a, p);
    }
  }

  /** `d` takes a lock: it is new to the log, nobody else moves, and no file changes. */
  ghost predicate Joins(s: State, d: nat, s': State) {
    && d < |s.ds| && d !in s.log
    && s'.fs == s.fs && s'.base == s.base && s'.log == s.log + [d]
    && |s'.ds| == |s.ds| && s'.ds == s.ds[d := s'.ds[d]] && s'.ds[d].job == s.ds[d].job
    && !Applied(s.ds[d].phase) && s'.ds[d].phase.Holding?
    && s'.ds[d].entry == Read(s.fs, Target(s.ds[d].job))
    && forall e: nat :: e < |s.ds| && e != d && Holds(s.ds[e].phase) ==> Target(s.ds[e].job) != Target(s.ds[d].job)
  }

  lemma AcquireJoins(c: Config, s: State, d: nat)
    requires ReadyBy(c, s, d, Acquire) && Inv(c, s) && LogOk(s)
    ensures Joins(s, d, NextBy(c, s, d, Acquire))
  {
    var s' := NextBy(c, s, d, Acquire);
    ByKeepsInv(c, s, d, Acquire);
    forall e: nat | e < |s.ds| && e != d && Holds(s.ds[e].phase)
      ensures Target(s.ds[e].job) != Target(s.ds[d].job)
    {
      assert Mine(c, s', d) && Mine(c, s', e);
      MutexTargets(c, s', d, e);
    }
  }

  lemma JoinKeepsReplay(s: State, d: nat, s': State, k: nat, p: Path)
    requires Joins(s, d, s') && k <= |s.log|
    ensures s'.log[..k] == s.log[..k]
    ensures Replay(s'.base, s'.ds, s'.log[..k], p) == Replay(s.base, s.ds, s.log[..k], p)
  {
    assert s'.log[..k] == s.log[..k];
    ReplayFrame(s.base, s.ds, s'.ds, s.log[..k], p);
  }

  lemma JoinKeepsOrder(s: State, d: nat, s': State, e: nat)
    requires Joins(s, d, s') && LogOk(s) && Ordered(s, e) && QuadletPath(Target(s.ds[d].job))
    ensures Ordered(s', e)
  {
    if e == d {
      assert LockedAt(s', d, |s.log|);
    } else if e < |s.ds| && Holds(s'.ds[e].phase) {
      var k: nat :| LockedAt(s, e, k);
      assert s'.log[..k] == s.log[..k];
      assert LockedAt(s', e, k);
    }
  }

  lemma JoinKeepsFound(s: State, d: nat, s': State, k: nat)
    requires Joins(s, d, s') && LogOk(s) && Found(s, k) && SerialAt(s, Target(s.ds[d].job))
    ensures Found(s', k)
  {
    if k <= |s.log| {
      assert s.log[..|s.log|] == s.log;
      assert s'.log[k] == if k < |s.log| then s.log[k] else d;
      if s'.log[k] < |s.ds| {
        JoinKeepsReplay(s, d, s', k, Target(s'.ds[s'.log[k]].job));
      }
    }
  }

  /** A new lock goes to the end of the order and finds what everyone before left. */
  lemma AcquireKeepsSerialInv(c: Config, s: State, d: nat)
    requires ReadyBy(c, s, d, Acquire) && Inv(c, s) && SerialInv(s)
    ensures SerialInv(NextBy(c, s, d, Acquire))
  {
    assert Mine(c, s, d);
    AcquireJoins(c, s, d);
    JoinKeepsSerialInv(s, d, NextBy(c, s, d, Acquire));
  }

  lemma JoinKeepsSerialInv(s: State, d: nat, s': State)
    requires Joins(s, d, s') && SerialInv(s) && QuadletPath(Target(s.ds[d].job))
    ensures SerialInv(s')
  {
    forall e: nat ensures Ordered(s', e) {
      JoinKeepsOrder(s, d, s', e);
    }
    forall k: nat ensures Found(s', k) {
      assert SerialAt(s, Target(s.ds[d].job));
      JoinKeepsFound(s, d, s', k);
    }
    forall p | QuadletPath(p) ensures SerialAt(s', p) {
      assert SerialAt(s, p);
      assert s.log[..|s.log|] == s.log;
      JoinKeepsReplay(s, d, s', |s.log|, p);
    }
  }

  /** Events that change neither files nor effects. */
  ghost predicate Quiet(s: State, s': State) {
    && s'.fs == s.fs && s'.base == s.base && s'.log == s.log && |s'.ds| == |s.ds|
    && forall d :: 0 <= d < |s.ds| ==>
      && s'.ds[d].job == s.ds[d].job && s'.ds[d].entry == s.ds[d].entry
      && Applied(s'.ds[d].phase) == Applied(s.ds[d].phase)
      && (Holds(s'.ds[d].phase) ==> Holds(s.ds[d].phase))
      && (s'.ds[d].phase.Idle? || s'.ds[d].phase.Waiting? ==> s'.ds[d] == s.ds[d])
  }

  lemma QuietKeepsReplay(s: State, s': State, log: seq<nat>, p: Path)
    requires Quiet(s, s')
    ensures Replay(s'.base, s'.ds, log, p) == Replay(s.base, s.ds, log, p)
  {
    ReplayFrame(s.base, s.ds, s'.ds, log, p);
  }

  lemma QuietKeepsOrder(s: State, s': State, e: nat)
    requires Quiet(s, s') && Ordered(s, e)
    ensures Ordered(s', e)
  {
    if e < |s.ds| && Holds(s'.ds[e].phase) {
      var k: nat :| LockedAt(s, e, k);
      assert LockedAt(s', e, k);
    }
  }

  lemma QuietKeepsSerialInv(s: State, s': State)
    requires SerialInv(s) && Quiet(s, s')
    ensures SerialInv(s')
  {
    forall e: nat ensures Ordered(s', e) {
      QuietKeepsOrder(s, s', e);
    }
    forall k: nat ensures Found(s', k) {
      if k < |s.log| {
        assert s.log[k] in s.log && Found(s, k);
        QuietKeepsReplay(s, s', s.log[..k], Target(s.ds[s.log[k]].job));
      }
    }
    forall p | QuadletPath(p) ensures SerialAt(s', p) {
      assert SerialAt(s, p);
      QuietKeepsReplay(s, s', s.log, p);
    }
  }

  lemma ManagerIsQuiet(c: Config, s: State, e: Event)
    requires Enabled(c, s, e) && (e.ReadUnit? || e.FinishReload?)
    ensures Quiet(s, Next(c, s, e))
  {
    if e.FinishReload? {
      ReplyIsQuiet(s, e.uid);
    }
  }

  lemma ReplyIsQuiet(s: State, uid: nat)
    requires uid in s.busy
    ensures Quiet(s, FinishedReload(s, uid))
  {
    var t := FinishedReload(s, uid);
    forall d: nat | d < |s.ds|
      ensures d < |t.ds| && (t.ds[d] == s.ds[d] || ReplyStep(s.ds[d], t.ds[d]))
    {
      ReplyMoves(s, uid, d);
    }
  }

  lemma ManagerKeepsSerialInv(c: Config, s: State, e: Event)
    requires Enabled(c, s, e) && SerialInv(s) && (e.ReadUnit? || e.FinishReload?)
    ensures SerialInv(Next(c, s, e))
  {
    ManagerIsQuiet(c, s, e);
    QuietKeepsSerialInv(s, Next(c, s, e));
  }

  lemma CrashKeepsSerialInv(c: Config, s: State, e: Event)
    requires Enabled(c, s, e) && SerialInv(s) && e.CrashSystem?
    ensures SerialInv(Next(c, s, e))
  {
    forall p | QuadletPath(p) ensures SerialAt(Next(c, s, e), p) {
    }
    forall d: nat ensures Ordered(Next(c, s, e), d) {
    }
  }

  lemma StepKeepsSerialInv(c: Config, s: State, e: Event)
    requires Enabled(c, s, e) && Inv(c, s) && SerialInv(s)
    ensures SerialInv(Next(c, s, e))
  {
    match e {
      case By(d, a) =>
        if a.Acquire? {
          AcquireKeepsSerialInv(c, s, d);
        } else {
          ByKeepsSerialInv(c, s, d, a);
        }
      case CrashSystem(_, _, _) => CrashKeepsSerialInv(c, s, e);
      case _ => ManagerKeepsSerialInv(c, s, e);
    }
  }

  lemma InitSerialInv(c: Config, s: State)
    requires Init(c, s)
    ensures SerialInv(s)
  {
    forall p | QuadletPath(p) ensures SerialAt(s, p) {
    }
    forall d: nat ensures Ordered(s, d) {
    }
  }

  lemma {:induction false} RunKeepsSerialInv(c: Config, s: State, es: seq<Event>)
    requires Inv(c, s) && SerialInv(s) && ValidRun(c, s, es)
    ensures SerialInv(After(c, s, es))
    decreases |es|
  {
    if es != [] {
      StepKeepsInv(c, s, es[0]);
      StepKeepsSerialInv(c, s, es[0]);
      RunKeepsSerialInv(c, Next(c, s, es[0]), es[1..]);
    }
  }

  /** Serialisability: in every reachable state, crashes included, every Quadlet path holds exactly what the
      deployments since the last reboot, run one at a time in the order they got their locks, leave there;
      each of them counts as a whole or not at all. */
  lemma Serialisable(c: Config, s: State, es: seq<Event>, p: Path)
    requires Init(c, s) && ValidRun(c, s, es) && QuadletPath(p)
    ensures var t := After(c, s, es); Read(t.fs, p) == Replay(t.base, t.ds, t.log, p)
  {
    InitInv(c, s);
    InitSerialInv(c, s);
    RunKeepsSerialInv(c, s, es);
    assert SerialAt(After(c, s, es), p);
  }

  /** And not only at the end: each deployment found, when it got its lock, exactly what those before it in
      the order leave, whether it has returned since or not. */
  lemma FoundInOrder(c: Config, s: State, es: seq<Event>, k: nat)
    requires Init(c, s) && ValidRun(c, s, es) && k < |After(c, s, es).log|
    ensures var t := After(c, s, es);
      && t.log[k] < |t.ds| && t.log[k] !in t.log[..k]
      && t.ds[t.log[k]].entry == Replay(t.base, t.ds, t.log[..k], Target(t.ds[t.log[k]].job))
  {
    InitInv(c, s);
    InitSerialInv(c, s);
    RunKeepsSerialInv(c, s, es);
    var t := After(c, s, es);
    assert t.log[k] in t.log && Found(t, k);
  }

  /** The same run counting only deployments that reported success. */
  ghost function Successes(base: Fs, ds: seq<Deployer>, log: seq<nat>, p: Path): Option<string> {
    if log == [] then Read(base, p)
    else
      var d := log[|log| - 1];
      if d < |ds| && Target(ds[d].job) == p && ds[d].phase == Done(Committed) then Some(ds[d].job.contents)
      else Successes(base, ds, log[..|log| - 1], p)
  }

  /** Returned, or not begun, without a crash, a directory-fsync failure or a failed restore. */
  predicate Clean(ph: Phase) {
    ph.Idle? || ph.Waiting? || ph == Done(Committed) || ph == Done(RolledBack) || ph == Done(Untouched)
  }

  lemma {:induction false} CleanReplay(base: Fs, ds: seq<Deployer>, log: seq<nat>, p: Path)
    requires forall d :: 0 <= d < |ds| ==> Clean(ds[d].phase)
    ensures Replay(base, ds, log, p) == Successes(base, ds, log, p)
  {
    if log != [] {
      CleanReplay(base, ds, log[..|log| - 1], p);
    }
  }

  lemma {:induction false} BaseStays(c: Config, s: State, es: seq<Event>)
    requires ValidRun(c, s, es) && forall e <- es :: !e.CrashSystem?
    ensures After(c, s, es).base == s.base
    decreases |es|
  {
    if es != [] {
      assert es[0] in es && forall e <- es[1..] :: e in es;
      BaseStays(c, Next(c, s, es[0]), es[1..]);
    }
  }

  /** Once all calls have returned cleanly, whatever their interleaving was, every Quadlet path holds what
      running only the successful ones, one at a time in lock order, leaves: each failed one was a no-op. */
  lemma CleanRunsAreSerial(c: Config, s: State, es: seq<Event>, p: Path)
    requires Init(c, s) && ValidRun(c, s, es) && QuadletPath(p)
    requires forall e <- es :: !e.CrashSystem?
    requires var t := After(c, s, es); forall d :: 0 <= d < |t.ds| ==> Clean(t.ds[d].phase)
    ensures var t := After(c, s, es); Read(t.fs, p) == Successes(c.initial, t.ds, t.log, p)
  {
    Serialisable(c, s, es, p);
    BaseStays(c, s, es);
    var t := After(c, s, es);
    CleanReplay(t.base, t.ds, t.log, p);
  }
}
