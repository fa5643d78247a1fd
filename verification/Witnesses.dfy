/** The exceptions to "an error leaves the path alone" are real: every outcome is reached, and an install whose
    directory fsync failed can be lost. */
module Witnesses {
  import opened Text
  import opened Disk
  import opened Machine
  import opened Solo
  import opened Durability
  import Guarantees
  import Names

  /** There is such an initial state for every list of jobs with valid names: an empty system whose policy is
      content. */
  lemma StartExists(jobs: seq<Job>, maxBytes: nat) returns (c: Config, s: State)
    requires forall j <- jobs :: Names.ValidQuadletFileName(j.file) && |j.contents| <= maxBytes
    ensures Init(c, s) && |s.ds| == |jobs|
    ensures forall d :: 0 <= d < |jobs| ==> s.ds[d].job == jobs[d] && MayInstall(c, s, d) && Read(s.fs, Target(jobs[d])) == None
  {
    var fs := Fs(map[], map[], map[], {}, 0);
    c := Config((name, text) => true, maxBytes, fs);
    var ds := seq(|jobs|, d requires 0 <= d < |jobs| => Deployer(jobs[d], Idle, None, {}, None, false));
    s := State(fs, fs, map[], map[], 0, map[], map[], ds, []);
    forall d | 0 <= d < |jobs| ensures MayInstall(c, s, d) {
      assert jobs[d] in jobs;
      assert TempPath(jobs[d], 0) !in fs.entries;
    }
  }

  lemma SomeNameIsValid()
    ensures Names.ValidQuadletFileName("a.container")
  {
    assert "a.container"[1..] == Names.QUADLET_SUFFIX;
  }

  /** From every initial state, every acceptable deployment can end in every way; the ends after an install
      need a snapshot within the size limit and a free temporary name, and nothing else. */
  lemma EveryOutcomeIsReached(c: Config, s: State, d: nat, end: Phase) returns (es: seq<Event>)
    requires Init(c, s) && d < |s.ds| && Acceptable(c, s.ds[d].job) && (end.Done? || end.Crashed?)
    requires AfterInstall(end) ==> SnapshotFits(c, s.fs, s.ds[d].job) && FreeFrom(s.fs, s.ds[d].job, 0)
    ensures ValidRun(c, s, es)
    ensures var t, p := After(c, s, es), Target(s.ds[d].job);
      && Guarantees.Reachable(c, t) && d < |t.ds| && t.ds[d].phase == end && t.ds[d].entry == Read(s.fs, p)
      && Read(t.fs, p) == if Applied(end) then Some(s.ds[d].job.contents) else Read(s.fs, p)
  {
    var t, x;
    es, t, x := EveryEndHappens(c, s, d, end);
  }

  /** The two ends with an error that leave the path changed. */
  predicate Exceptional(outcome: Outcome) {
    outcome == InstallUnsynced || outcome == RestoreFailed(true)
  }

  /** Exactly when an error return leaves the path as it was at the lock, given that the bundle is not what was
      there anyway. */
  lemma ErrorLeavesPath(c: Config, s: State, e: Event, d: nat)
    requires Guarantees.Reachable(c, s) && Guarantees.Returns(c, s, e, d)
    requires var x := Next(c, s, e).ds[d]; x.phase.outcome != Committed && x.entry != Some(x.job.contents)
    ensures var t := Next(c, s, e); var x := t.ds[d];
      Read(t.fs, Target(x.job)) == x.entry <==> !Exceptional(x.phase.outcome)
  {
    Guarantees.OutcomeIsExact(c, s, e, d);
  }

  /** An install that returned with the directory fsync failed shows the new Quadlet, and a crash can bring
      the old one back: the durability of `ReturnIsDurable` does not extend to it. */
  lemma UnsyncedInstallMayBeLost(c: Config, s: State, d: nat) returns (es: seq<Event>, after: Fs)
    requires Init(c, s) && d < |s.ds| && Acceptable(c, s.ds[d].job)
    requires SnapshotFits(c, s.fs, s.ds[d].job) && FreeFrom(s.fs, s.ds[d].job, 0)
    ensures ValidRun(c, s, es)
    ensures var t, p := After(c, s, es), Target(s.ds[d].job);
      && d < |t.ds| && t.ds[d].phase == Done(InstallUnsynced) && Read(t.fs, p) == Some(s.ds[d].job.contents)
      && CrashTo(t.fs, after) && Read(after, p) == Read(s.fs, p)
  {
    var t, x;
    es, t, x := EndsUnflushed(c, s, d);
    var p := Target(x.job);
    after := CrashMayPick(t.fs, p, Lookup(s.fs, p));
  }

  /** Crash atomicity does fail after such an end: the next deployment of the path gets its lock, and a crash
      brings back the text from before both. */
  lemma CrashBringsBackThirdText(c: Config, s: State, d: nat, f: nat) returns (es: seq<Event>, after: Fs)
    requires Init(c, s) && MayInstall(c, s, d)
    requires f < |s.ds| && f != d && Acceptable(c, s.ds[f].job) && Target(s.ds[f].job) == Target(s.ds[d].job)
    ensures ValidRun(c, s, es)
    ensures var t, p := After(c, s, es), Target(s.ds[d].job);
      && StillHolds(t, f) && t.ds[f].job == s.ds[f].job && t.ds[f].entry == Some(s.ds[d].job.contents)
      && LooseBefore(t, f, d)
      && CrashTo(t.fs, after) && Read(after, p) == Read(s.fs, p)
  {
    var es1, t, x := EndsUnflushed(c, s, d);
    assert t.ds[f] == s.ds[f];
    var es2, u, y := Enter(c, t, f);
    RunsJoin(c, s, es1, es2);
    es := es1 + es2;
    after := CrashMayPick(u.fs, Target(x.job), Lookup(s.fs, Target(x.job)));
  }

  /** One such case in full: no file at first, a bundle `x` whose directory fsync fails, then a bundle `y`, and
      after a crash there is no file again, neither what the second deployment found nor what it brings. */
  lemma SomeCrashIsNotAtomic() returns (c: Config, s: State, es: seq<Event>, after: Fs)
    ensures Init(c, s) && ValidRun(c, s, es) && CrashTo(After(c, s, es).fs, after) && StillHolds(After(c, s, es), 1)
    ensures var x := After(c, s, es).ds[1];
      Read(after, Target(x.job)) == None && x.entry == Some("x") && x.job.contents == "y"
  {
    var first, second := Job(1000, "a.container", "x", 1, false), Job(1000, "a.container", "y", 2, false);
    SomeNameIsValid();
    c, s := StartExists([first, second], 1);
    assert s.ds[0].job == first && s.ds[1].job == second;
    es, after := CrashBringsBackThirdText(c, s, 0, 1);
  }
}
