/** Every concurrent run without a system crash has a serial one beside it: a run of the same machine in which
    the deployments that got a lock run one after the other, in the order of their locks, and end the same. */
module SerialRuns {
  import opened Disk
  import opened Machine
  import opened Safety
  import opened Serial
  import opened Solo

  // ----- What a deployment that came so far must have found -----

  /** Past the snapshot, or ended after the new Quadlet was written. */
  predicate Started(ph: Phase) {
    match ph
    case Idle => false
    case Waiting(_) => false
    case Holding => false
    case _ => Installed(ph) || !(ph.Done? || ph.Crashed?)
  }

  /** Past the creation of the temporary file for the new Quadlet, for as long as that matters. */
  predicate Installed(ph: Phase) {
    match ph
    case Idle => false
    case Waiting(_) => false
    case Holding => false
    case Opening(goal, _) => goal.Restore?
    case Done(_) => AfterInstall(ph)
    case Crashed(_) => AfterInstall(ph)
    case _ => true
  }

  predicate UsesTemp(ph: Phase) {
    ph.Filling? || ph.Renaming? || ph.Cleaning?
  }

  ghost predicate Capable(c: Config, x: Deployer) {
    && (Started(x.phase) && x.entry.Some? ==> |x.entry.value| <= c.maxBytes)
    && (Installed(x.phase) ==> FreeFrom(c.initial, x.job, 0))
    && (x.phase.Opening? ==> x.phase.attempt < MAX_ATTEMPTS)
    && (UsesTemp(x.phase) ==> TempPath(x.job, x.phase.attempt) !in c.initial.entries)
  }

  /** Temporary names taken at first stay taken: nobody removes a file it did not create. */
  ghost predicate TakenStays(c: Config, fs: Fs) {
    forall q | q in c.initial.entries && !QuadletPath(q) :: q in fs.entries
  }

  ghost predicate CapableInv(c: Config, s: State) {
    && TakenStays(c, s.fs)
    && (forall d :: 0 <= d < |s.ds| ==> Capable(c, s.ds[d]))
    && (forall d <- s.log :: d < |s.ds| && Acceptable(c, s.ds[d].job))
  }

  lemma TakenUntouched(c: Config, s: State, d: nat, a: Act, q: Path)
    requires ReadyBy(c, s, d, a) && Capable(c, s.ds[d]) && Holds(s.ds[d].phase) && QuadletPath(Target(s.ds[d].job))
    requires q in c.initial.entries && q in s.fs.entries && !QuadletPath(q)
    ensures Added(c, s, d, a, q) == {}
  {
  }

  lemma TouchKeepsTaken(c: Config, s: State, d: nat, a: Act)
    requires ReadyBy(c, s, d, a) && Inv(c, s) && TakenStays(c, s.fs) && Capable(c, s.ds[d])
    ensures TakenStays(c, Touch(c, s, d, a))
  {
    assert Mine(c, s, d);
    if Holds(s.ds[d].phase) {
      forall q | q in c.initial.entries && !QuadletPath(q) ensures q in Touch(c, s, d, a).entries {
        TakenUntouched(c, s, d, a, q);
        TouchEntries(c, s, d, a, q);
        assert Lookup(s.fs, q).Some?;
      }
    } else {
      IdleTouchesNothing(c, s, d, a);
    }
  }

  lemma FreeNow(c: Config, s: State, d: nat)
    requires d < |s.ds| && s.ds[d].phase.Opening? && s.ds[d].phase.attempt < MAX_ATTEMPTS && TakenStays(c, s.fs)
    requires TempPath(s.ds[d].job, s.ds[d].phase.attempt) !in s.fs.entries
    ensures TempPath(s.ds[d].job, s.ds[d].phase.attempt) !in c.initial.entries && FreeFrom(c.initial, s.ds[d].job, 0)
  {
    TempIsNoQuadlet(s.ds[d].job, s.ds[d].phase.attempt);
  }

  lemma StartedMoves(c: Config, s: State, d: nat, a: Act)
    requires ReadyBy(c, s, d, a) && Started(Advance(c, s, d, a).phase)
    ensures var x, x' := s.ds[d], Advance(c, s, d, a);
      && x'.entry == x.entry && (Started(x.phase) || a.TakeSnapshot?)
  {
  }

  lemma InstalledMoves(c: Config, s: State, d: nat, a: Act)
    requires ReadyBy(c, s, d, a) && Installed(Advance(c, s, d, a).phase)
    ensures Installed(s.ds[d].phase) || a.CreateTemp?
  {
  }

  lemma TempMoves(c: Config, s: State, d: nat, a: Act)
    requires ReadyBy(c, s, d, a)
    ensures var ph, ph' := s.ds[d].phase, Advance(c, s, d, a).phase;
      && (ph'.Opening? ==> ph'.attempt < MAX_ATTEMPTS)
      && (UsesTemp(ph') ==> (UsesTemp(ph) || a.CreateTemp?) && ph'.attempt == ph.attempt)
  {
  }

  lemma AdvanceKeepsCapable(c: Config, s: State, d: nat, a: Act)
    requires ReadyBy(c, s, d, a) && Capable(c, s.ds[d]) && TakenStays(c, s.fs)
    requires a.TakeSnapshot? ==> s.ds[d].entry == Read(s.fs, Target(s.ds[d].job))
    ensures Capable(c, Advance(c, s, d, a))
  {
    AdvanceMoves(c, s, d, a);
    TempMoves(c, s, d, a);
    if a.CreateTemp? {
      FreeNow(c, s, d);
    }
    if Started(Advance(c, s, d, a).phase) {
      StartedMoves(c, s, d, a);
    }
    if Installed(Advance(c, s, d, a).phase) {
      InstalledMoves(c, s, d, a);
    }
  }

  lemma ByKeepsCapable(c: Config, s: State, d: nat, a: Act)
    requires ReadyBy(c, s, d, a) && Inv(c, s) && CapableInv(c, s)
    ensures CapableInv(c, NextBy(c, s, d, a))
  {
    assert Mine(c, s, d);
    AdvanceMoves(c, s, d, a);
    TouchKeepsTaken(c, s, d, a);
    AdvanceKeepsCapable(c, s, d, a);
  }

  lemma ReplyKeepsCapable(c: Config, x: Deployer, x': Deployer)
    requires Capable(c, x) && ReplyStep(x, x')
    ensures Capable(c, x')
  {
  }

  lemma ManagerKeepsCapable(c: Config, s: State, e: Event)
    requires Enabled(c, s, e) && CapableInv(c, s) && (e.ReadUnit? || e.FinishReload?)
    ensures CapableInv(c, Next(c, s, e))
  {
    var t := Next(c, s, e);
    forall d: nat | d < |s.ds| ensures d < |t.ds| && t.ds[d].job == s.ds[d].job && Capable(c, t.ds[d]) {
      if e.FinishReload? {
        ReplyMoves(s, e.uid, d);
        if t.ds[d] != s.ds[d] {
          ReplyKeepsCapable(c, s.ds[d], t.ds[d]);
        }
      }
    }
  }

  lemma StepKeepsCapable(c: Config, s: State, e: Event)
    requires Inv(c, s) && CapableInv(c, s) && Enabled(c, s, e) && !e.CrashSystem?
    ensures CapableInv(c, Next(c, s, e))
  {
    if e.By? {
      ByKeepsCapable(c, s, e.d, e.act);
    } else {
      ManagerKeepsCapable(c, s, e);
    }
  }

  lemma {:induction false} RunKeepsCapable(c: Config, s: State, es: seq<Event>)
    requires Inv(c, s) && CapableInv(c, s) && ValidRun(c, s, es) && forall e <- es :: !e.CrashSystem?
    ensures var t := After(c, s, es); CapableInv(c, t) && SameJobs(s, t)
    decreases |es|
  {
    if es != [] {
      assert es[0] in es && forall f <- es[1..] :: f in es;
      StepKeepsInv(c, s, es[0]);
      StepKeepsCapable(c, s, es[0]);
      JobsStay(c, s, es[0]);
      RunKeepsCapable(c, Next(c, s, es[0]), es[1..]);
    }
  }

  ghost predicate SameJobs(s: State, t: State) {
    |t.ds| == |s.ds| && forall d :: 0 <= d < |s.ds| ==> t.ds[d].job == s.ds[d].job
  }

  // ----- The serial run -----

  ghost predicate SameEnd(x: Deployer, y: Deployer) {
    x.job == y.job && x.phase == y.phase && x.entry == y.entry
  }

  /** `u` is where the first `k` deployments in the order of `t`, run one after the other from `s`, end. */
  ghost predicate SerialUpTo(c: Config, s: State, t: State, k: nat, u: State) {
    && k <= |t.log| && |u.ds| == |s.ds| == |t.ds|
    && Calm(u) && u.log == t.log[..k]
    && (forall j :: 0 <= j < |t.log| ==> t.log[j] < |t.ds|)
    && (forall j :: 0 <= j < k ==> SameEnd(u.ds[t.log[j]], t.ds[t.log[j]]))
    && (forall d: nat :: d < |s.ds| && d !in t.log[..k] ==> u.ds[d] == s.ds[d])
    && (forall p | QuadletPath(p) :: Read(u.fs, p) == Replay(t.base, t.ds, t.log[..k], p))
    && (forall q | q in u.fs.entries && !QuadletPath(q) :: q in c.initial.entries)
  }

  /** What the theorem needs to know of the concurrent run's end. */
  ghost predicate Sequenced(c: Config, s: State, t: State) {
    && Init(c, s) && CapableInv(c, t) && SerialInv(t) && SameJobs(s, t) && t.base == c.initial
    && forall d :: 0 <= d < |t.ds| ==> !Holds(t.ds[d].phase)
  }

  /** The next deployment, run alone, ends as it did among the others. */
  lemma OneMore(c: Config, s: State, t: State, k: nat, u: State) returns (es: seq<Event>, v: State)
    requires Sequenced(c, s, t) && k < |t.log| && SerialUpTo(c, s, t, k, u)
    ensures Leads(c, u, t.log[k], es, v) && SerialUpTo(c, s, t, k + 1, v)
  {
    var d := t.log[k];
    assert d in t.log;
    assert d !in t.log[..k];
    assert u.ds[d] == s.ds[d];
    var x := t.ds[d];
    assert Found(t, k);
    assert Read(u.fs, Target(x.job)) == x.entry;
    assert x.phase.Done? || x.phase.Crashed?;
    if AfterInstall(x.phase) {
      MayInstallHere(c, u, d, x);
    }
    var y;
    es, v, y := EveryEndHappens(c, u, d, x.phase);
    BlockExtends(c, s, t, k, u, v, y);
  }

  lemma MayInstallHere(c: Config, u: State, d: nat, x: Deployer)
    requires d < |u.ds| && u.ds[d].phase.Idle? && u.ds[d].job == x.job && Calm(u)
    requires Capable(c, x) && AfterInstall(x.phase) && (x.phase.Done? || x.phase.Crashed?) && Acceptable(c, x.job)
    requires Read(u.fs, Target(x.job)) == x.entry
    requires forall q | q in u.fs.entries && !QuadletPath(q) :: q in c.initial.entries
    ensures MayInstall(c, u, d)
  {
    var k: nat :| k < MAX_ATTEMPTS && TempPath(x.job, k) !in c.initial.entries;
    TempIsNoQuadlet(x.job, k);
    assert TempPath(x.job, k) !in u.fs.entries;
  }

  lemma BlockKeepsOthers(c: Config, s: State, t: State, k: nat, u: State, v: State, y: Deployer)
    requires Sequenced(c, s, t) && k < |t.log| && SerialUpTo(c, s, t, k, u)
    requires Over(u, v, t.log[k], y) && SameEnd(y, t.ds[t.log[k]])
    ensures forall j :: 0 <= j < k + 1 ==> SameEnd(v.ds[t.log[j]], t.ds[t.log[j]])
    ensures forall d: nat :: d < |s.ds| && d !in t.log[..k + 1] ==> v.ds[d] == s.ds[d]
  {
    var d := t.log[k];
    assert t.log[..k + 1] == t.log[..k] + [d];
    forall j | 0 <= j < k + 1 ensures SameEnd(v.ds[t.log[j]], t.ds[t.log[j]]) {
      assert j < k ==> t.log[j] != d;
    }
  }

  lemma BlockExtends(c: Config, s: State, t: State, k: nat, u: State, v: State, y: Deployer)
    requires Sequenced(c, s, t) && k < |t.log| && SerialUpTo(c, s, t, k, u)
    requires Over(u, v, t.log[k], y) && LeavesBehind(u, v, y) && SameEnd(y, t.ds[t.log[k]])
    ensures SerialUpTo(c, s, t, k + 1, v)
  {
    BlockKeepsOthers(c, s, t, k, u, v, y);
    assert t.log[..k + 1] == t.log[..k] + [t.log[k]];
    assert t.log[..k + 1][..k] == t.log[..k];
  }

  function Concat(blocks: seq<seq<Event>>): seq<Event> {
    if blocks == [] then [] else Concat(blocks[..|blocks| - 1]) + blocks[|blocks| - 1]
  }

  /** Block `k` belongs to the deployment that got the `k`-th lock. */
  ghost predicate InOrder(blocks: seq<seq<Event>>, log: seq<nat>) {
    |blocks| == |log| && forall k :: 0 <= k < |blocks| ==> ActsAlone(blocks[k], log[k])
  }

  lemma SerialStart(c: Config, s: State, t: State)
    requires Sequenced(c, s, t)
    ensures SerialUpTo(c, s, t, 0, s)
  {
    var none := t.log[..0];
    assert none == [];
    forall j | 0 <= j < |t.log| ensures t.log[j] < |t.ds| {
      assert t.log[j] in t.log;
    }
  }

  lemma OneMoreInOrder(front: seq<seq<Event>>, es: seq<Event>, log: seq<nat>, k: nat)
    requires k < |log| && InOrder(front, log[..k]) && ActsAlone(es, log[k])
    ensures InOrder(front + [es], log[..k + 1]) && Concat(front + [es]) == Concat(front) + es
  {
    assert (front + [es])[..k] == front;
    assert log[..k + 1] == log[..k] + [log[k]];
  }

  lemma {:induction false} SerialPrefix(c: Config, s: State, t: State, k: nat) returns (blocks: seq<seq<Event>>, u: State)
    requires Sequenced(c, s, t) && k <= |t.log|
    ensures InOrder(blocks, t.log[..k])
    ensures ValidRun(c, s, Concat(blocks)) && After(c, s, Concat(blocks)) == u
    ensures SerialUpTo(c, s, t, k, u)
  {
    if k == 0 {
      blocks, u := [], s;
      SerialStart(c, s, t);
    } else {
      var front, mid := SerialPrefix(c, s, t, k - 1);
      var es, last := OneMore(c, s, t, k - 1, mid);
      RunsJoin(c, s, Concat(front), es);
      OneMoreInOrder(front, es, t.log, k - 1);
      blocks, u := front + [es], last;
    }
  }

  lemma RunIsSequenced(c: Config, s: State, es: seq<Event>)
    requires Init(c, s) && ValidRun(c, s, es) && forall e <- es :: !e.CrashSystem?
    requires var t := After(c, s, es); forall d :: 0 <= d < |t.ds| ==> !Holds(t.ds[d].phase)
    ensures Sequenced(c, s, After(c, s, es))
  {
    InitInv(c, s);
    InitSerialInv(c, s);
    RunKeepsSerialInv(c, s, es);
    RunKeepsCapable(c, s, es);
    BaseStays(c, s, es);
  }

  /** Serialisability as a refinement: for every run without a system crash after which nobody holds a lock,
      there is a run from the same start in which the deployments run strictly one after the other, in the
      order of their locks, each ends in the same way having found the same file, and every Quadlet path holds
      the same. */
  lemma SerialRunExists(c: Config, s: State, es: seq<Event>) returns (blocks: seq<seq<Event>>)
    requires Init(c, s) && ValidRun(c, s, es) && forall e <- es :: !e.CrashSystem?
    requires var t := After(c, s, es); forall d :: 0 <= d < |t.ds| ==> !Holds(t.ds[d].phase)
    ensures var t := After(c, s, es);
      && InOrder(blocks, t.log) && ValidRun(c, s, Concat(blocks))
      && var u := After(c, s, Concat(blocks));
        && u.log == t.log && |u.ds| == |t.ds|
        && (forall d <- t.log :: d < |t.ds| && SameEnd(u.ds[d], t.ds[d]))
        && (forall p | QuadletPath(p) :: Read(u.fs, p) == Read(t.fs, p))
  {
    var t := After(c, s, es);
    RunIsSequenced(c, s, es);
    var u;
    blocks, u := SerialPrefix(c, s, t, |t.log|);
    SerialIsSame(c, s, t, u);
  }

  lemma SerialIsSame(c: Config, s: State, t: State, u: State)
    requires Sequenced(c, s, t) && SerialUpTo(c, s, t, |t.log|, u)
    ensures t.log[..|t.log|] == t.log == u.log
    ensures forall d <- t.log :: d < |t.ds| && SameEnd(u.ds[d], t.ds[d])
    ensures forall p | QuadletPath(p) :: Read(u.fs, p) == Read(t.fs, p)
  {
    assert t.log[..|t.log|] == t.log;
    forall d | d in t.log ensures d < |t.ds| && SameEnd(u.ds[d], t.ds[d]) {
      var j :| 0 <= j < |t.log| && t.log[j] == d;
    }
    forall p | QuadletPath(p) ensures Read(u.fs, p) == Read(t.fs, p) {
      assert SerialAt(t, p);
    }
  }
}
